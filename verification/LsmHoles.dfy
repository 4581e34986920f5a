/** Manual compactions: exactly when a memtable flush can break the output level of a running
    compaction, and a run in which one makes a written key disappear. */
module LsmHoles {
  import opened Wrappers
  import opened DbFormat
  import opened VersionFiles
  import opened VersionLookup
  import opened Compactions
  import opened PickInputs
  import opened LsmState
  import opened LsmProof
  import opened LsmCompact
  import opened LsmRuns
  import opened LsmLimits

  // ---- One flush ----

  /** x is in no file a flush would have to avoid on its way to level p. */
  ghost predicate Hole(levels: seq<Level>, p: nat, x: UserKey)
    requires p < |levels|
  {
    forall j, f :: 0 <= j <= p && f in levels[j] && f.entries != [] ==> !Covers(f, x)
  }

  /** What a running compaction relies on but for the flushes: its inputs are in the version,
      its outputs are sorted, made of input entries, and apart from the files that stay. */
  ghost predicate Running(levels: seq<Level>, p: Pending) {
    && ValidLevels(levels) && p.level + 1 < NUM_LEVELS
    && (forall f :: f in p.in0 ==> f in levels[p.level])
    && (forall f :: f in p.in1 ==> f in levels[p.level + 1])
    && SortedLevel(p.outputs) && (forall e :: OutputEntry(p, e) ==> InputEntry(p, e))
    && forall g, o :: g in levels[p.level + 1] && g !in p.in1 && o in p.outputs ==> Apart(g, o)
  }

  /** Every compaction that starts from a valid version is of this kind. */
  lemma BegunIsRunning(s: Store, w: Work)
    requires ValidLevels(s.levels) && WorkOn(s, w)
    ensures Running(s.levels, w.p)
  {
    var p := w.p;
    SurvivorsSubset(s.levels, p.level, w.input, p.ss);
    SurvivorsSorted(s.levels, p.level, w.input, p.ss);
    forall e | OutputEntry(p, e) ensures InputEntry(p, e) {
      OutputMember(p, w.runs, s.nextFile, e);
    }
    forall e | e in Flatten(w.runs) ensures e.sn <= MAX_SEQUENCE {
      var f :| f in p.in0 + p.in1 && e in f.entries;
      assert ValidFile(f);
    }
    OutputsSorted(p.outputs, w.runs, s.nextFile);
    forall g, o | g in s.levels[p.level + 1] && g !in p.in1 && o in p.outputs ensures Apart(g, o) {
      OutputsApart(s.levels[p.level + 1], p, w.lo, w.hi, g, o);
    }
  }

  /** No key of an output lies in the range of a file that may land at the output level. */
  lemma OutputKeyOutside(levels: seq<Level>, p: Pending, f: File, e: Entry)
    requires Running(levels, p) && p.level + 1 <= MAX_MEM_COMPACT_LEVEL && ValidFile(f) && OutputEntry(p, e)
    requires MayLand(levels, p.level + 1, Smallest(f).key, Largest(f).key)
    ensures e.key < Smallest(f).key || Largest(f).key < e.key
  {
    var g :| g in p.in0 + p.in1 && e in g.entries;
    var l := if g in p.in0 then p.level else p.level + 1;
    assert g in levels[l] && ValidFile(g);
    EntryInRange(g, e);
    assert !Overlaps(g, Some(Smallest(f).key), Some(Largest(f).key));
  }

  /** A flushed file meets an output exactly when it lies strictly inside its range. */
  lemma MeetsIffInside(levels: seq<Level>, p: Pending, f: File, o: File)
    requires Running(levels, p) && p.level + 1 <= MAX_MEM_COMPACT_LEVEL && ValidFile(f) && o in p.outputs
    requires MayLand(levels, p.level + 1, Smallest(f).key, Largest(f).key)
    ensures o.entries != []
    ensures !Apart(f, o) <==> Smallest(o).key < Smallest(f).key && Largest(f).key < Largest(o).key
  {
    assert ValidFile(o);
    SmallestNotAfterLargest(o);
    SmallestNotAfterLargest(f);
    var a, b := o.entries[0], o.entries[|o.entries| - 1];
    assert OutputEntry(p, a) && OutputEntry(p, b);
    OutputKeyOutside(levels, p, f, a);
    OutputKeyOutside(levels, p, f, b);
  }

  /** The range of a file that may land is a hole. */
  lemma LandsInHole(levels: seq<Level>, p: nat, f: File, x: UserKey)
    requires |levels| == NUM_LEVELS && 1 <= p <= MAX_MEM_COMPACT_LEVEL && f.entries != []
    requires MayLand(levels, p, Smallest(f).key, Largest(f).key) && Covers(f, x)
    ensures Hole(levels, p, x)
  {
    forall j, g | 0 <= j <= p && g in levels[j] && g.entries != [] ensures !Covers(g, x) {
      assert !Overlaps(g, Some(Smallest(f).key), Some(Largest(f).key));
    }
  }

  lemma FlushedLevelSorted(levels: seq<Level>, q: nat, f: File, files: Level)
    requires ValidLevels(levels) && 1 <= q <= MAX_MEM_COMPACT_LEVEL && ValidFile(f)
    requires MayLand(levels, q, Smallest(f).key, Largest(f).key) && Rebuilt(levels[q], files, [], [f])
    ensures SortedLevel(files)
  {
    SmallestNotAfterLargest(f);
    forall g | g in levels[q] ensures Apart(g, f) {
      assert ValidFile(g) && !Overlaps(g, Some(Smallest(f).key), Some(Largest(f).key));
    }
    InstallBottomLevel(levels[q], files, [], [f]);
  }

  /** After the flush of f and the install, the output level is sorted exactly when f lies
      inside no output. */
  lemma SortedIffApart(levels: seq<Level>, p: Pending, f: File, flushed: Level, installed: Level)
    requires Running(levels, p) && p.level + 1 <= MAX_MEM_COMPACT_LEVEL && ValidFile(f) && f !in p.in1
    requires MayLand(levels, p.level + 1, Smallest(f).key, Largest(f).key)
    requires Rebuilt(levels[p.level + 1], flushed, [], [f]) && Rebuilt(flushed, installed, p.in1, p.outputs)
    ensures SortedLevel(installed) <==> forall o :: o in p.outputs ==> Apart(f, o)
  {
    FlushedLevelSorted(levels, p.level + 1, f, flushed);
    if forall o :: o in p.outputs ==> Apart(f, o) {
      forall g, o | g in flushed && g !in p.in1 && o in p.outputs ensures Apart(g, o) {
      }
      InstallBottomLevel(flushed, installed, p.in1, p.outputs);
    }
    if SortedLevel(installed) {
      forall o | o in p.outputs ensures Apart(f, o) {
        NotAnOutput(levels, p, f, o);
        assert f in installed && o in installed;
        SortedMembersApart(installed, f, o);
      }
    }
  }

  lemma NotAnOutput(levels: seq<Level>, p: Pending, f: File, o: File)
    requires Running(levels, p) && p.level + 1 <= MAX_MEM_COMPACT_LEVEL && ValidFile(f) && o in p.outputs
    requires MayLand(levels, p.level + 1, Smallest(f).key, Largest(f).key)
    ensures f != o
  {
    SmallestNotAfterLargest(f);
    if f == o {
      assert OutputEntry(p, f.entries[0]);
      OutputKeyOutside(levels, p, f, f.entries[0]);
    }
  }

  // ---- Rebuilt levels exist ----

  /** BySmallestKey. */
  predicate FileBefore(f: File, g: File)
    requires f.entries != [] && g.entries != []
  {
    Less(Smallest(f), Smallest(g)) || (Smallest(f) == Smallest(g) && f.number < g.number)
  }

  ghost predicate InOrder(files: Level) {
    NonEmpty(files) && forall i, j :: 0 <= i < j < |files| ==> FileBefore(files[i], files[j])
  }

  /** No two files share a number. */
  ghost predicate Numbered(files: Level) {
    forall f, g :: f in files && g in files && f.number == g.number ==> f == g
  }

  ghost function Inserted(files: Level, f: File): Level
    requires NonEmpty(files) && f.entries != []
  {
    if files == [] then [f]
    else if FileBefore(f, files[0]) then [f] + files
    else [files[0]] + Inserted(files[1..], f)
  }

  lemma {:induction false} InsertedMembers(files: Level, f: File)
    requires NonEmpty(files) && f.entries != []
    ensures forall g :: g in Inserted(files, f) <==> g in files || g == f
  {
    if files != [] {
      InsertedMembers(files[1..], f);
      assert files == [files[0]] + files[1..];
    }
  }

  lemma {:induction false} InsertedInOrder(files: Level, f: File)
    requires InOrder(files) && f.entries != [] && forall g :: g in files ==> g.number != f.number
    ensures InOrder(Inserted(files, f))
  {
    if files != [] {
      var rest := files[1..];
      if FileBefore(f, files[0]) {
        assert forall i :: 0 < i < |files| ==> FileBefore(files[0], files[i]);
      } else {
        InsertedInOrder(rest, f);
        InsertedMembers(rest, f);
        assert files[0] in files;
        forall g | g in Inserted(rest, f) ensures g.entries != [] && FileBefore(files[0], g) {
          if g != f {
            var i :| 0 <= i < |rest| && rest[i] == g;
            assert files[i + 1] == g;
          }
        }
        ConsInOrder(files[0], Inserted(rest, f));
      }
    }
  }

  lemma ConsInOrder(f: File, files: Level)
    requires InOrder(files) && f.entries != [] && forall g :: g in files ==> g.entries != [] && FileBefore(f, g)
    ensures InOrder([f] + files)
  {
    assert forall i :: 0 <= i < |files| ==> files[i] in files;
  }

  /** Any files with distinct numbers can be put in order. */
  lemma {:induction false} SortFiles(files: Level) returns (r: Level)
    requires NonEmpty(files) && Numbered(files)
    ensures InOrder(r) && forall g :: g in r <==> g in files
  {
    if files == [] {
      r := [];
    } else {
      var rest := files[1..];
      assert files == [files[0]] + rest;
      r := SortFiles(rest);
      if files[0] !in r {
        InsertedMembers(r, files[0]);
        InsertedInOrder(r, files[0]);
        r := Inserted(r, files[0]);
      }
    }
  }

  ghost function Kept(files: Level, removed: Level): (r: Level)
    ensures forall f :: f in r <==> f in files && f !in removed
  {
    if files == [] then []
    else (if files[0] in removed then [] else [files[0]]) + Kept(files[1..], removed)
  }

  lemma RebuiltExists(base: Level, removed: Level, added: Level) returns (files: Level)
    requires NonEmpty(base) && NonEmpty(added) && Numbered(Kept(base, removed) + added)
    ensures Rebuilt(base, files, removed, added)
  {
    var kept := Kept(base, removed);
    forall i | 0 <= i < |kept + added| ensures (kept + added)[i].entries != [] {
      assert (kept + added)[i] in kept + added;
    }
    files := SortFiles(kept + added);
    forall f | f in files ensures f.entries != [] {
    }
  }

  // ---- Some flush breaks the level exactly when an output has a hole ----

  ghost predicate OutputHole(levels: seq<Level>, p: Pending)
    requires |levels| == NUM_LEVELS
  {
    && p.level + 1 <= MAX_MEM_COMPACT_LEVEL
    && exists o, x :: o in p.outputs && o.entries != [] && Covers(o, x) && Hole(levels, p.level + 1, x)
  }

  /** A write, its flush to some level, and the install of the compaction leave the output
      level unsorted. */
  ghost predicate Breaks(s: Store, ops: seq<Op>, level: nat, size: nat, s1: Store, s2: Store, t: Store, u: Store) {
    && s.pending.Some? && Next(s, Write(ops), s1) && Next(s1, Switch, s2)
    && Next(s2, Flush(level, size), t) && Next(t, Install, u)
    && s.pending.value.level + 1 < |u.levels| && !SortedLevel(u.levels[s.pending.value.level + 1])
  }

  ghost predicate FlushBreaks(s: Store) {
    exists ops, level, size, s1, s2, t, u :: Breaks(s, ops, level, size, s1, s2, t, u)
  }

  /** A compaction is running, nothing is in memory and numbers are left. */
  ghost predicate Ready(s: Store) {
    && s.pending.Some? && s.mem == [] && s.imm.None? && s.lastSequence + 1 < MAX_SEQUENCE
    && Running(s.levels, s.pending.value) && FileNumbers(s) && PendingNumbers(s.levels, s.nextFile, s.pending.value)
  }

  lemma FlushFileValid(s: Store, ops: seq<Op>, s1: Store, f: File)
    requires s.mem == [] && WriteStep(s, s1, ops) && f.entries == s1.mem != []
    ensures ValidFile(f)
  {
    WriteIsWritten(s, s1, ops);
  }

  /** What the flush and the install did to the output level. */
  lemma OutputLevel(s: Store, p: Pending, q: nat, ops: seq<Op>, level: nat, size: nat, s1: Store, s2: Store, t: Store,
                    u: Store)
    requires s.mem == [] && s.pending == Some(p) && q == p.level + 1 < NUM_LEVELS == |s.levels|
    requires Breaks(s, ops, level, size, s1, s2, t, u)
    ensures |t.levels| == |u.levels| == NUM_LEVELS && Rebuilt(t.levels[q], u.levels[q], p.in1, p.outputs)
    ensures t.levels[q] != s.levels[q] ==>
      var f := File(s.nextFile, size, s1.mem);
      && q <= MAX_MEM_COMPACT_LEVEL && ValidFile(f) && MayLand(s.levels, q, Smallest(f).key, Largest(f).key)
      && Rebuilt(s.levels[q], t.levels[q], [], [f])
  {
    if s1.mem != [] {
      FlushFileValid(s, ops, s1, File(s.nextFile, size, s1.mem));
    }
  }

  lemma UnsortedNeedsHole(levels: seq<Level>, p: Pending, f: File, flushed: Level, installed: Level)
    requires Running(levels, p) && p.level + 1 <= MAX_MEM_COMPACT_LEVEL && ValidFile(f) && f !in p.in1
    requires MayLand(levels, p.level + 1, Smallest(f).key, Largest(f).key)
    requires Rebuilt(levels[p.level + 1], flushed, [], [f]) && Rebuilt(flushed, installed, p.in1, p.outputs)
    requires !SortedLevel(installed)
    ensures OutputHole(levels, p)
  {
    SortedIffApart(levels, p, f, flushed, installed);
    var o :| o in p.outputs && !Apart(f, o);
    MeetsIffInside(levels, p, f, o);
    SmallestNotAfterLargest(f);
    LandsInHole(levels, p.level + 1, f, Smallest(f).key);
    assert Covers(o, Smallest(f).key);
  }

  lemma BreaksNeedsHole(s: Store, ops: seq<Op>, level: nat, size: nat, s1: Store, s2: Store, t: Store, u: Store)
    requires Ready(s) && Breaks(s, ops, level, size, s1, s2, t, u)
    ensures OutputHole(s.levels, s.pending.value)
  {
    var p := s.pending.value;
    var q := p.level + 1;
    OutputLevel(s, p, q, ops, level, size, s1, s2, t, u);
    NotAnInput(s, File(s.nextFile, size, s1.mem));
    LevelNeedsHole(s.levels, p, File(s.nextFile, size, s1.mem), t.levels[q], u.levels[q]);
  }

  lemma NotAnInput(s: Store, f: File)
    requires Ready(s) && f.number == s.nextFile
    ensures f !in s.pending.value.in1
  {
  }

  lemma LevelNeedsHole(levels: seq<Level>, p: Pending, f: File, flushed: Level, installed: Level)
    requires Running(levels, p) && f !in p.in1 && !SortedLevel(installed)
    requires Rebuilt(flushed, installed, p.in1, p.outputs)
    requires flushed != levels[p.level + 1] ==>
      && p.level + 1 <= MAX_MEM_COMPACT_LEVEL && ValidFile(f)
      && MayLand(levels, p.level + 1, Smallest(f).key, Largest(f).key)
      && Rebuilt(levels[p.level + 1], flushed, [], [f])
    ensures OutputHole(levels, p)
  {
    if flushed == levels[p.level + 1] {
      InstallBottomLevel(levels[p.level + 1], installed, p.in1, p.outputs);
    } else {
      UnsortedNeedsHole(levels, p, f, flushed, installed);
    }
  }

  /** The states of a write of key x, its flush and the install. */
  ghost function Wrote(s: Store, x: UserKey): Store {
    var e := Entry(x, s.lastSequence + 1, Value, "");
    s.(mem := [e], lastSequence := s.lastSequence + 1, history := s.history + {e})
  }

  ghost function FileOf(s: Store, x: UserKey): File {
    File(s.nextFile, 1, [Entry(x, s.lastSequence + 1, Value, "")])
  }

  lemma HoleMayLand(levels: seq<Level>, q: nat, f: File, x: UserKey)
    requires |levels| == NUM_LEVELS && q <= MAX_MEM_COMPACT_LEVEL && Hole(levels, q, x)
    requires f.entries != [] && Smallest(f).key == x == Largest(f).key
    ensures MayLand(levels, q, Smallest(f).key, Largest(f).key)
  {
    forall j, g | 0 <= j <= q && g in levels[j] && g.entries != [] ensures !Overlaps(g, Some(x), Some(x)) {
      assert !Covers(g, x);
    }
  }

  lemma WriteOne(s: Store, x: UserKey)
    requires s.mem == [] && s.lastSequence + 1 < MAX_SEQUENCE
    ensures Next(s, Write([Put(x, "")]), Wrote(s, x))
  {
    OneOpBatch(Put(x, ""), s.lastSequence + 1);
  }

  lemma FlushedExists(base: Level, f: File) returns (flushed: Level)
    requires NonEmpty(base) && Numbered(base) && f.entries != [] && forall g :: g in base ==> g.number < f.number
    ensures Rebuilt(base, flushed, [], [f]) && NonEmpty(flushed)
  {
    assert forall g :: g in Kept(base, []) + [f] ==> g == f || g in base;
    flushed := RebuiltExists(base, [], [f]);
    forall i | 0 <= i < |flushed| ensures flushed[i].entries != [] {
      assert flushed[i] in flushed;
    }
  }

  /** Any level with distinct numbers, without some files and with others. */
  lemma InstalledExists(base: Level, removed: Level, added: Level) returns (files: Level)
    requires NonEmpty(base) && NonEmpty(added) && Numbered(base) && Numbered(added)
    requires forall f, g :: f in base && g in added ==> f.number != g.number
    ensures Rebuilt(base, files, removed, added)
  {
    assert forall g :: g in Kept(base, removed) + added ==> g in added || g in base;
    files := RebuiltExists(base, removed, added);
  }

  /** The levels after the flush of f to level q and after the install. */
  lemma LevelsExist(s: Store, p: Pending, f: File) returns (flushed: Level, upper: Level, lower: Level)
    requires Running(s.levels, p) && FileNumbers(s) && PendingNumbers(s.levels, s.nextFile, p)
    requires f.entries != [] && f.number == s.nextFile
    ensures Rebuilt(s.levels[p.level + 1], flushed, [], [f]) && Rebuilt(flushed, lower, p.in1, p.outputs)
    ensures Rebuilt(s.levels[p.level], upper, p.in0, [])
  {
    var base := s.levels[p.level + 1];
    flushed := FlushedExists(base, f);
    assert forall g :: g in flushed <==> g in base || g == f;
    lower := InstalledExists(flushed, p.in1, p.outputs);
    upper := InstalledExists(s.levels[p.level], p.in0, []);
  }

  lemma HoleBreaks(s: Store, o: File, x: UserKey)
    requires Ready(s) && s.pending.value.level + 1 <= MAX_MEM_COMPACT_LEVEL
    requires o in s.pending.value.outputs && o.entries != []
    requires Covers(o, x) && Hole(s.levels, s.pending.value.level + 1, x)
    ensures FlushBreaks(s)
  {
    var p := s.pending.value;
    var q, f := p.level + 1, FileOf(s, x);
    WriteOne(s, x);
    var s1 := Wrote(s, x);
    var s2 := s1.(mem := [], imm := Some(s1.mem));
    HoleMayLand(s.levels, q, f, x);
    var flushed, upper, lower := LevelsExist(s, p, f);
    var t := s2.(imm := None, nextFile := s2.nextFile + 1, levels := s.levels[q := flushed]);
    var u := t.(pending := None, levels := t.levels[p.level := upper][q := lower]);
    assert Next(s2, Flush(q, 1), t);
    assert Next(t, Install, u);
    InsideBreaks(s, p, f, o, x, flushed, lower);
    assert Breaks(s, [Put(x, "")], q, 1, s1, s2, t, u);
  }

  lemma InsideBreaks(s: Store, p: Pending, f: File, o: File, x: UserKey, flushed: Level, lower: Level)
    requires Running(s.levels, p) && FileNumbers(s)
    requires p.level + 1 <= MAX_MEM_COMPACT_LEVEL && s.lastSequence + 1 < MAX_SEQUENCE
    requires f == FileOf(s, x) && o in p.outputs && o.entries != [] && Covers(o, x)
    requires MayLand(s.levels, p.level + 1, x, x)
    requires Rebuilt(s.levels[p.level + 1], flushed, [], [f]) && Rebuilt(flushed, lower, p.in1, p.outputs)
    ensures !SortedLevel(lower)
  {
    assert ValidFile(f) && f !in p.in1;
    SortedIffApart(s.levels, p, f, flushed, lower);
    MeetsIffInside(s.levels, p, f, o);
    var a, b := o.entries[0], o.entries[|o.entries| - 1];
    assert OutputEntry(p, a) && OutputEntry(p, b);
    OutputKeyOutside(s.levels, p, f, a);
    OutputKeyOutside(s.levels, p, f, b);
  }

  /** While a compaction runs, some write can make the install leave the output level unsorted
      exactly when a flush can reach that level and the range of some output has a hole. */
  lemma FlushBreaksIffHole(s: Store)
    requires Ready(s)
    ensures FlushBreaks(s) <==> OutputHole(s.levels, s.pending.value)
  {
    if FlushBreaks(s) {
      var ops, level, size, s1, s2, t, u :| Breaks(s, ops, level, size, s1, s2, t, u);
      BreaksNeedsHole(s, ops, level, size, s1, s2, t, u);
    }
    if OutputHole(s.levels, s.pending.value) {
      var p := s.pending.value;
      var o, x :| o in p.outputs && o.entries != [] && Covers(o, x) && Hole(s.levels, p.level + 1, x);
      HoleBreaks(s, o, x);
    }
  }

  // ---- A run in which a manual compaction loses a write ----

  /** A run that ends in a state, and the map it should implement. */
  ghost predicate Reached(states: seq<Store>, steps: seq<Step>, s: Store, m: map<UserKey, string>) {
    Run(states, steps) && states[|states| - 1] == s && Model(steps) == m
  }

  lemma OneMore(states: seq<Store>, steps: seq<Step>, s: Store, m: map<UserKey, string>, step: Step, t: Store)
    requires Reached(states, steps, s, m) && Next(s, step, t)
    ensures Reached(states + [t], steps + [step], t, if step.Write? then ApplyOps(m, step.ops) else m)
  {
    var states', steps' := states + [t], steps + [step];
    forall i | 0 <= i < |steps'| ensures Next(states'[i], steps'[i], states'[i + 1]) {
      if i < |steps| {
        assert states'[i] == states[i] && states'[i + 1] == states[i + 1];
      }
    }
    assert steps'[..|steps|] == steps;
  }

  ghost function Puts(s: Store, k: UserKey, v: string): Store {
    var e := Entry(k, s.lastSequence + 1, Value, v);
    s.(mem := [e], lastSequence := s.lastSequence + 1, history := s.history + {e})
  }

  ghost function Switched(s: Store): Store {
    s.(mem := [], imm := Some(s.mem))
  }

  ghost function Landing(s: Store, l: nat, files: Level): Store
    requires l < |s.levels|
  {
    s.(imm := None, nextFile := s.nextFile + 1, levels := s.levels[l := files])
  }

  /** A key written, switched out and flushed to a level. */
  ghost function PutDown(s: Store, k: UserKey, v: string, l: nat, files: Level): Store
    requires l < |s.levels|
  {
    Landing(Switched(Puts(s, k, v)), l, files)
  }

  lemma PutThrough(states: seq<Store>, steps: seq<Step>, s: Store, m: map<UserKey, string>, k: UserKey, v: string,
                   l: nat, files: Level)
    returns (states': seq<Store>, steps': seq<Step>)
    requires Reached(states, steps, s, m) && s.mem == [] && s.imm == None
    requires s.lastSequence < 100 && |s.levels| == NUM_LEVELS
    requires l <= MAX_MEM_COMPACT_LEVEL && MayLand(s.levels, l, k, k)
    requires Rebuilt(s.levels[l], files, [], [File(s.nextFile, 1, [Entry(k, s.lastSequence + 1, Value, v)])])
    ensures Reached(states', steps', PutDown(s, k, v, l, files), m[k := v])
  {
    var a := Puts(s, k, v);
    var b := Switched(a);
    OneOpBatch(Put(k, v), s.lastSequence + 1);
    assert Next(s, Write([Put(k, v)]), a);
    assert ApplyOps(m, [Put(k, v)]) == m[k := v] by {
      assert [Put(k, v)][..0] == [];
    }
    OneMore(states, steps, s, m, Write([Put(k, v)]), a);
    states', steps' := states + [a], steps + [Write([Put(k, v)])];
    OneMore(states', steps', a, m[k := v], Switch, b);
    states', steps' := states' + [b], steps' + [Switch];
    OneMore(states', steps', b, m[k := v], Flush(l, 1), Landing(b, l, files));
    states', steps' := states' + [Landing(b, l, files)], steps' + [Flush(l, 1)];
  }

  const A1 := Entry(1, 1, Value, "a")
  const B9 := Entry(9, 2, Value, "b")
  const C1 := Entry(1, 3, Value, "c")
  const D9 := Entry(9, 4, Value, "d")
  const M5 := Entry(5, 5, Value, "m")
  const FILE_A := File(2, 1, [A1])
  const FILE_B := File(3, 1, [B9])
  const FILE_C := File(4, 1, [C1])
  const FILE_D := File(5, 1, [D9])
  const JOINED := File(6, 1, [C1, D9])
  const MIDDLE := File(7, 1, [M5])
  const MANUAL := Work(Pending(1, [FILE_C, FILE_D], [FILE_A, FILE_B], 4, [JOINED]), 1, 9, [C1, A1, D9, B9], [[C1, D9]])

  /** Files for keys 1 and 9 at levels 1 and 2, with nothing between them. */
  const FOUR_FILES: seq<Level> := [[], [FILE_C, FILE_D], [FILE_A, FILE_B], [], [], [], [], []]
  const BEFORE := Store([], None, FOUR_FILES, 4, 6, [], None, {A1, B9, C1, D9})
  const DURING := BEFORE.(pending := Some(MANUAL.p), nextFile := 7)
  const FLUSHED := DURING.(lastSequence := 5, nextFile := 8, history := {A1, B9, C1, D9, M5},
                           levels := FOUR_FILES[2 := [FILE_A, MIDDLE, FILE_B]])
  const AFTER := FLUSHED.(pending := None, levels := [[], [], [JOINED, MIDDLE], [], [], [], [], []])

  /** Files for keys 1 and 9 at level 2 only. */
  const TWO_FILES := Store([], None, [[], [], [FILE_A, FILE_B], [], [], [], [], []], 2, 4, [], None, {A1, B9})

  lemma ReachTwoFiles() returns (states: seq<Store>, steps: seq<Step>, m: map<UserKey, string>)
    ensures Reached(states, steps, TWO_FILES, m)
  {
    states, steps, m := [EMPTY], [], map[];
    var s1 := PutDown(EMPTY, 1, "a", 2, [FILE_A]);
    states, steps := PutThrough(states, steps, EMPTY, m, 1, "a", 2, [FILE_A]);
    m := m[1 := "a"];
    var s2 := PutDown(s1, 9, "b", 2, [FILE_A, FILE_B]);
    states, steps := PutThrough(states, steps, s1, m, 9, "b", 2, [FILE_A, FILE_B]);
    m := m[9 := "b"];
    assert s2.levels == TWO_FILES.levels && s2.history == {A1, B9};
  }

  lemma ReachFourFiles() returns (states: seq<Store>, steps: seq<Step>, m: map<UserKey, string>)
    ensures Reached(states, steps, BEFORE, m)
  {
    states, steps, m := ReachTwoFiles();
    var s3 := PutDown(TWO_FILES, 1, "c", 1, [FILE_C]);
    states, steps := PutThrough(states, steps, TWO_FILES, m, 1, "c", 1, [FILE_C]);
    m := m[1 := "c"];
    var s4 := PutDown(s3, 9, "d", 1, [FILE_C, FILE_D]);
    states, steps := PutThrough(states, steps, s3, m, 9, "d", 1, [FILE_C, FILE_D]);
    m := m[9 := "d"];
    assert s4.levels == FOUR_FILES && s4.history == {A1, B9, C1, D9};
  }

  lemma ManualInputs()
    ensures Picked(FOUR_FILES, 1, [FILE_C, FILE_D], [FILE_A, FILE_B], 1, 9)
    ensures IsMerge([C1, A1, D9, B9], [FILE_C, FILE_D], [FILE_A, FILE_B])
  {
    assert FILE_C in [FILE_C, FILE_D] && FILE_D in [FILE_C, FILE_D] && IsHull([FILE_C, FILE_D], 1, 9);
    var all := [FILE_C, FILE_D] + [FILE_A, FILE_B];
    assert all == [FILE_C, FILE_D, FILE_A, FILE_B];
    forall e ensures e in [C1, A1, D9, B9] <==> exists f :: f in all && e in f.entries {
      assert FILE_A in all && FILE_B in all && FILE_C in all && FILE_D in all;
      assert C1 in FILE_C.entries && D9 in FILE_D.entries && A1 in FILE_A.entries && B9 in FILE_B.entries;
    }
  }

  lemma ManualSurvivors()
    ensures Survivors(FOUR_FILES, 1, [C1, A1, D9, B9], 4) == [C1, D9] == Flatten([[C1, D9]])
  {
    var input := [C1, A1, D9, B9];
    SurvivorsStep(FOUR_FILES, 1, input, 4, 0);
    SurvivorsStep(FOUR_FILES, 1, input, 4, 1);
    SurvivorsStep(FOUR_FILES, 1, input, 4, 2);
    SurvivorsStep(FOUR_FILES, 1, input, 4, 3);
    assert input[..0] == [] && input[..4] == input;
    assert !Dropped(FOUR_FILES, 1, input, 4, 0) && Dropped(FOUR_FILES, 1, input, 4, 1);
    assert !Dropped(FOUR_FILES, 1, input, 4, 2) && Dropped(FOUR_FILES, 1, input, 4, 3);
    FlattenAppend([], [C1, D9]);
    assert [] + [[C1, D9]] == [[C1, D9]];
  }

  lemma ManualBegins()
    ensures Next(BEFORE, Begin(MANUAL), DURING)
  {
    ManualInputs();
    ManualSurvivors();
  }

  lemma ManualInstalls()
    ensures Next(FLUSHED, Install, AFTER)
  {
    assert Rebuilt(FLUSHED.levels[1], AFTER.levels[1], [FILE_C, FILE_D], []);
    assert Rebuilt(FLUSHED.levels[2], AFTER.levels[2], [FILE_A, FILE_B], [JOINED]);
    assert AFTER.levels == FLUSHED.levels[1 := AFTER.levels[1]][2 := AFTER.levels[2]];
  }

  lemma ReachAfter() returns (states: seq<Store>, steps: seq<Step>, m: map<UserKey, string>)
    ensures Reached(states, steps, AFTER, m) && 5 in m && m[5] == "m"
  {
    states, steps, m := ReachFourFiles();
    ManualBegins();
    OneMore(states, steps, BEFORE, m, Begin(MANUAL), DURING);
    states, steps := states + [DURING], steps + [Begin(MANUAL)];
    MiddleLands();
    states, steps := PutThrough(states, steps, DURING, m, 5, "m", 2, [FILE_A, MIDDLE, FILE_B]);
    m := m[5 := "m"];
    assert PutDown(DURING, 5, "m", 2, [FILE_A, MIDDLE, FILE_B]) == FLUSHED by {
      assert {A1, B9, C1, D9} + {M5} == {A1, B9, C1, D9, M5};
    }
    ManualInstalls();
    OneMore(states, steps, FLUSHED, m, Install, AFTER);
    states, steps := states + [AFTER], steps + [Install];
  }

  lemma MiddleLands()
    ensures MayLand(FOUR_FILES, 2, 5, 5) && Rebuilt(FOUR_FILES[2], [FILE_A, MIDDLE, FILE_B], [], [MIDDLE])
  {
  }

  /** The binary search of the output level ends at the wrong file. */
  lemma SearchMisses()
    ensures WellFormed(AFTER.levels) && SearchLevels(AFTER.levels, 5, 5, 1) == None
  {
    var files := AFTER.levels[2];
    assert files == [JOINED, MIDDLE];
    assert ValidFile(JOINED) && ValidFile(MIDDLE);
    assert SearchFrom(files, LookupKey(5, 5), 0, 2) == SearchFrom(files, LookupKey(5, 5), 0, 1) == 0;
    assert JOINED.entries[1..] == [D9];
    assert TableGet(JOINED.entries, 5, 5) == None;
    assert SearchLevel(files, 5, 5) == None;
    EmptyBelow(AFTER.levels, 5, 5, 3);
    assert SearchLevels(AFTER.levels, 5, 5, 2) == None;
  }

  lemma {:induction false} EmptyBelow(levels: seq<Level>, k: UserKey, s: nat, l: nat)
    requires l <= |levels| && (forall i :: 0 <= i < |levels| ==> NonEmpty(levels[i]))
    requires forall i :: l <= i < |levels| ==> levels[i] == []
    ensures SearchLevels(levels, k, s, l) == None
    decreases |levels| - l
  {
    if l < |levels| {
      EmptyBelow(levels, k, s, l + 1);
    }
  }

  /** A run of writes, flushes and one manual compaction after which Get does not find the key
      that was written last. */
  method ManualCompactionLosesWrite() returns (r: Option<Entry>, ghost states: seq<Store>, ghost steps: seq<Step>)
    ensures Run(states, steps) && states[|states| - 1] == AFTER && AFTER.lastSequence == 5
    ensures Lookup(Model(steps), 5) == Some("m") && r == None
  {
    ghost var m;
    states, steps, m := ReachAfter();
    SearchMisses();
    r := LsmRuns.Get(AFTER.mem, AFTER.imm, AFTER.levels, 5, 5);
  }
}
