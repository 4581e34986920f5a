/** How a compaction chooses its input files (PickCompaction, CompactRange and
    SetupOtherInputs), and where a memtable flush is allowed to land. */
module PickInputs {
  import opened Wrappers
  import opened DbFormat
  import opened VersionFiles
  import opened VersionLookup

  /** [lo, hi] is the user-key hull of a nonempty file list. */
  ghost predicate IsHull(files: Level, lo: UserKey, hi: UserKey) {
    && ValidFiles(files)
    && (exists f :: f in files && Smallest(f).key == lo)
    && (exists f :: f in files && Largest(f).key == hi)
    && forall f :: f in files ==> lo <= Smallest(f).key && Largest(f).key <= hi
  }

  /** x lies in the range of some file of the list. */
  ghost predicate UnderSome(files: Level, x: UserKey) {
    exists f :: f in files && f.entries != [] && Covers(f, x)
  }

  /** Every key of [lo, hi] lies in the range of some file of the list. */
  ghost predicate Covered(files: Level, lo: UserKey, hi: UserKey) {
    forall x :: lo <= x <= hi ==> UnderSome(files, x)
  }

  /** The input files of a compaction: all of level + 1 that meets the hull of the
      level inputs, and at level 0 everything that meets that hull. */
  ghost predicate Picked(levels: seq<Level>, level: nat, in0: Level, in1: Level, lo: UserKey, hi: UserKey) {
    && |levels| == NUM_LEVELS && level + 1 < NUM_LEVELS
    && IsHull(in0, lo, hi)
    && (forall f :: f in in0 ==> f in levels[level])
    && ValidFiles(levels[level]) && ValidFiles(levels[level + 1])
    && (forall f :: f in in1 <==> f in levels[level + 1] && Overlaps(f, Some(lo), Some(hi)))
    && (level == 0 ==> forall f :: f in levels[0] && Overlaps(f, Some(lo), Some(hi)) ==> f in in0)
  }

  /** The union of the input ranges has no hole. */
  ghost predicate GapFree(in0: Level, in1: Level) {
    exists lo, hi :: IsHull(in0 + in1, lo, hi) && Covered(in0 + in1, lo, hi)
  }

  method GetRange(inputs: Level) returns (smallest: InternalKey, largest: InternalKey)
    requires inputs != [] && ValidFiles(inputs)
    ensures IsHull(inputs, smallest.key, largest.key)
    ensures forall f :: f in inputs ==> !Less(Smallest(f), smallest) && !Less(largest, Largest(f))
  {
    smallest, largest := Smallest(inputs[0]), Largest(inputs[0]);
    for i := 1 to |inputs|
      invariant forall j :: 0 <= j < i ==> !Less(Smallest(inputs[j]), smallest) && !Less(largest, Largest(inputs[j]))
      invariant exists j :: 0 <= j < i && Smallest(inputs[j]) == smallest
      invariant exists j :: 0 <= j < i && Largest(inputs[j]) == largest
    {
      if Less(Smallest(inputs[i]), smallest) {
        smallest := Smallest(inputs[i]);
      }
      if Less(largest, Largest(inputs[i])) {
        largest := Largest(inputs[i]);
      }
    }
  }

  function TotalFileSize(files: Level): nat {
    if files == [] then 0 else TotalFileSize(files[..|files| - 1]) + files[|files| - 1].size
  }

  lemma SubsetOfLevelValid(files: Level, sub: Level)
    requires ValidFiles(files) && forall f :: f in sub ==> f in files
    ensures ValidFiles(sub)
  {
    forall i | 0 <= i < |sub| ensures ValidFile(sub[i]) {
      assert sub[i] in sub;
    }
  }

  /** Nothing outside the list meets its hull. */
  ghost predicate ClosedHull(files: Level, inputs: Level) {
    forall f, l, h :: IsHull(inputs, l, h) && f in files && f.entries != [] && Overlaps(f, Some(l), Some(h)) ==>
      f in inputs
  }

  /** Inside the hull of the list, whatever is outside the request is under a file. */
  ghost predicate FillsHull(inputs: Level, lo: Option<UserKey>, hi: Option<UserKey>) {
    forall x, l, h :: IsHull(inputs, l, h) && l <= x <= h && !InRange(x, lo, hi) ==> UnderSome(inputs, x)
  }

  /** What a compaction knows about the files gathered for a user-key range. */
  ghost predicate Gathered(levels: seq<Level>, level: nat, lo: Option<UserKey>, hi: Option<UserKey>, inputs: Level)
    requires ValidLevels(levels) && level < NUM_LEVELS
  {
    && ValidFiles(inputs) && ValidFiles(levels[level])
    && (forall f :: f in inputs ==> f in levels[level])
    && (forall f :: f in levels[level] && Overlaps(f, lo, hi) ==> f in inputs)
    && (level > 0 ==> forall f :: f in inputs ==> Overlaps(f, lo, hi))
    && (level == 0 ==> ClosedHull(levels[0], inputs))
    && FillsHull(inputs, lo, hi)
  }

  /** The files that meet a range, in order. */
  ghost predicate AllMeeting(files: Level, lo: Option<UserKey>, hi: Option<UserKey>, inputs: Level) {
    ValidFiles(files) && inputs == Selected(files, lo, hi)
  }

  method OverlappingLevelInputs(levels: seq<Level>, level: nat, lo: Option<UserKey>, hi: Option<UserKey>)
    returns (inputs: Level)
    requires ValidLevels(levels) && level < NUM_LEVELS
    ensures Gathered(levels, level, lo, hi, inputs)
  {
    inputs := MeetingLevelInputs(levels, level, lo, hi);
  }

  method MeetingLevelInputs(levels: seq<Level>, level: nat, lo: Option<UserKey>, hi: Option<UserKey>)
    returns (inputs: Level)
    requires ValidLevels(levels) && level < NUM_LEVELS
    ensures Gathered(levels, level, lo, hi, inputs) && (level > 0 ==> AllMeeting(levels[level], lo, hi, inputs))
  {
    assert ValidFiles(levels[level]);
    ghost var b, e;
    inputs, b, e := GetOverlappingInputs(level, levels[level], lo, hi);
    SubsetOfLevelValid(levels[level], inputs);
    if level == 0 {
      OverlapClosedSelf(levels[0], lo, hi, b, e, inputs);
    } else {
      SelectedFills(levels[level], lo, hi, inputs);
    }
  }

  lemma OverlapClosedSelf(files: Level, lo: Option<UserKey>, hi: Option<UserKey>, b: Option<UserKey>,
                          e: Option<UserKey>, inputs: Level)
    requires ValidFiles(files) && ValidFiles(inputs) && LeastClosure(inputs, files, lo, hi, b, e)
    ensures forall f :: f in files && Overlaps(f, lo, hi) ==> f in inputs
    ensures ClosedHull(files, inputs) && FillsHull(inputs, lo, hi)
  {
    var C := set f | f in inputs;
    assert OverlapClosed(C, files, lo, hi);
    assert Filled(C, lo, hi, b, e);
    forall x, l, h | IsHull(inputs, l, h) && l <= x <= h && !InRange(x, lo, hi)
      ensures UnderSome(inputs, x)
    {
      assert InRange(x, b, e);
      var g :| g in C && g.entries != [] && Covers(g, x);
      assert g in inputs;
    }
  }

  /** Files that meet the request cover everything between the request and their hull. */
  lemma SelectedFills(files: Level, lo: Option<UserKey>, hi: Option<UserKey>, inputs: Level)
    requires ValidFiles(files) && ValidFiles(inputs) && inputs == Selected(files, lo, hi)
    ensures FillsHull(inputs, lo, hi)
  {
    forall x, l, h | IsHull(inputs, l, h) && l <= x <= h && !InRange(x, lo, hi)
      ensures UnderSome(inputs, x)
    {
      if lo.Some? && x < lo.value {
        var g :| g in inputs && Smallest(g).key == l;
        assert Overlaps(g, lo, hi);
        assert Covers(g, x);
      } else {
        var g :| g in inputs && Largest(g).key == h;
        assert Overlaps(g, lo, hi);
        assert Covers(g, x);
      }
    }
  }

  /** Completing a compaction from its seed files of `level`. */
  method SetupOtherInputs(levels: seq<Level>, level: nat, seed: Level, maxFileSize: nat)
    returns (in0: Level, in1: Level, ghost lo: UserKey, ghost hi: UserKey)
    requires ValidLevels(levels) && level + 1 < NUM_LEVELS
    requires seed != [] && ValidFiles(seed) && forall f :: f in seed ==> f in levels[level]
    requires level == 0 ==> ClosedHull(levels[0], seed)
    ensures Picked(levels, level, in0, in1, lo, hi)
    ensures forall f :: f in seed ==> f in in0
    ensures (exists l, h :: IsHull(seed, l, h) && Covered(seed, l, h)) ==> GapFree(in0, in1)
  {
    var smallest, largest := GetRange(seed);
    in0 := seed;
    in1 := OverlappingLevelInputs(levels, level + 1, Some(smallest.key), Some(largest.key));
    lo, hi := smallest.key, largest.key;
    var allStart, allLimit := GetRange(in0 + in1);
    UnionCovered(in0, in1, lo, hi, allStart.key, allLimit.key);
    if in1 != [] {
      var ok, e0, e1, lo', hi' := Expand(levels, level, in0, in1, allStart.key, allLimit.key, maxFileSize, lo, hi);
      if ok {
        in0, in1 := e0, e1;
        lo, hi := lo', hi';
      }
    }
  }

  /** A first choice of inputs: in0 with hull [l, h], the level + 1 files meeting it,
      and the hull [L, H] of all of them. */
  ghost predicate Seeded(levels: seq<Level>, level: nat, in0: Level, in1: Level, L: UserKey, H: UserKey, l: UserKey,
                         h: UserKey) {
    && level + 1 < NUM_LEVELS == |levels|
    && ValidFiles(in0) && in0 != [] && (forall f :: f in in0 ==> f in levels[level])
    && ValidFiles(in1) && (forall f :: f in in1 ==> f in levels[level + 1])
    && IsHull(in0, l, h) && (forall f :: f in in1 ==> Overlaps(f, Some(l), Some(h)))
    && IsHull(in0 + in1, L, H)
  }

  /** Larger inputs that are as good: they hold the level inputs, and have no gap if those had
      none. */
  ghost predicate Grown(levels: seq<Level>, level: nat, in0: Level, in1: Level, e0: Level, e1: Level, L: UserKey,
                        H: UserKey, lo: UserKey, hi: UserKey) {
    && Picked(levels, level, e0, e1, lo, hi) && (forall f :: f in in0 ==> f in e0)
    && (Covered(in0 + in1, L, H) ==> GapFree(e0, e1))
  }

  /** The attempt to grow the level inputs without changing the number of
      level + 1 files. */
  method Expand(levels: seq<Level>, level: nat, in0: Level, in1: Level, allStart: UserKey, allLimit: UserKey,
                maxFileSize: nat, ghost l: UserKey, ghost h: UserKey)
    returns (ok: bool, expanded0: Level, expanded1: Level, ghost lo: UserKey, ghost hi: UserKey)
    requires ValidLevels(levels) && Seeded(levels, level, in0, in1, allStart, allLimit, l, h)
    ensures ok ==> Grown(levels, level, in0, in1, expanded0, expanded1, allStart, allLimit, lo, hi)
  {
    expanded0 := OverlappingLevelInputs(levels, level, Some(allStart), Some(allLimit));
    expanded1 := [];
    lo, hi := 0, 0;
    ok := false;
    if |expanded0| > |in0| && TotalFileSize(in1) + TotalFileSize(expanded0) < 25 * maxFileSize {
      var newStart, newLimit := GetRange(expanded0);
      lo, hi := newStart.key, newLimit.key;
      expanded1 := OverlappingLevelInputs(levels, level + 1, Some(newStart.key), Some(newLimit.key));
      ok := |expanded1| == |in1|;
      ExpandSound(levels, level, in0, in1, expanded0, expanded1, allStart, allLimit, lo, hi, l, h);
    }
  }

  lemma ExpandSound(levels: seq<Level>, level: nat, in0: Level, in1: Level, e0: Level, e1: Level,
                    L: UserKey, H: UserKey, lo: UserKey, hi: UserKey, l: UserKey, h: UserKey)
    requires ValidLevels(levels) && Seeded(levels, level, in0, in1, L, H, l, h)
    requires Gathered(levels, level, Some(L), Some(H), e0) && IsHull(e0, lo, hi)
    requires Gathered(levels, level + 1, Some(lo), Some(hi), e1)
    ensures Grown(levels, level, in0, in1, e0, e1, L, H, lo, hi)
  {
    IsPicked(levels, level, e0, e1, lo, hi);
    SeedStays(levels, level, in0, in1, e0, L, H);
    if Covered(in0 + in1, L, H) {
      ExpandedGapFree(in0, in1, e0, e1, levels[level + 1], L, H, lo, hi, l, h);
    }
  }

  lemma IsPicked(levels: seq<Level>, level: nat, in0: Level, in1: Level, lo: UserKey, hi: UserKey)
    requires ValidLevels(levels) && level + 1 < NUM_LEVELS
    requires IsHull(in0, lo, hi) && forall f :: f in in0 ==> f in levels[level]
    requires level == 0 ==> ClosedHull(levels[0], in0)
    requires ValidFiles(in1) && forall f :: f in in1 ==> f in levels[level + 1] && Overlaps(f, Some(lo), Some(hi))
    requires forall f :: f in levels[level + 1] && Overlaps(f, Some(lo), Some(hi)) ==> f in in1
    ensures Picked(levels, level, in0, in1, lo, hi)
  {
  }

  lemma ExpandedGapFree(in0: Level, in1: Level, e0: Level, e1: Level, next: Level, L: UserKey, H: UserKey, lo: UserKey,
                        hi: UserKey, l: UserKey, h: UserKey)
    requires ValidFiles(next) && ValidFiles(in0) && ValidFiles(e1) && forall f :: f in in1 ==> f in next
    requires IsHull(in0, l, h) && forall f :: f in in1 ==> f.entries != [] && Overlaps(f, Some(l), Some(h))
    requires IsHull(in0 + in1, L, H) && Covered(in0 + in1, L, H)
    requires IsHull(e0, lo, hi) && forall f :: f in in0 ==> f in e0
    requires forall f :: f in next && Overlaps(f, Some(lo), Some(hi)) ==> f in e1
    requires forall f :: f in e1 ==> Overlaps(f, Some(lo), Some(hi))
    requires FillsHull(e0, Some(L), Some(H))
    ensures GapFree(e0, e1)
  {
    HullExists(e0 + e1);
    var l', h' :| IsHull(e0 + e1, l', h');
    InputsStay(in0, in1, e0, e1, next, lo, hi, l, h);
    forall x | lo <= x <= hi && !(L <= x <= H) ensures UnderSome(e0, x) {
      assert !InRange(x, Some(L), Some(H));
    }
    ExpandedCovered(in0 + in1, e0, e1, L, H, lo, hi, l', h');
  }

  lemma InputsStay(in0: Level, in1: Level, e0: Level, e1: Level, next: Level, lo: UserKey, hi: UserKey, l: UserKey,
                   h: UserKey)
    requires ValidFiles(next) && ValidFiles(in0) && forall f :: f in in1 ==> f in next
    requires IsHull(in0, l, h) && forall f :: f in in1 ==> f.entries != [] && Overlaps(f, Some(l), Some(h))
    requires IsHull(e0, lo, hi) && forall f :: f in in0 ==> f in e0
    requires forall f :: f in next && Overlaps(f, Some(lo), Some(hi)) ==> f in e1
    ensures forall f :: f in in0 + in1 ==> f in e0 + e1
  {
    assert lo <= l && h <= hi;
  }

  lemma HullExists(files: Level)
    requires files != [] && ValidFiles(files)
    ensures exists l, h :: IsHull(files, l, h)
  {
    if |files| == 1 {
      assert IsHull(files, Smallest(files[0]).key, Largest(files[0]).key);
    } else {
      var n := |files| - 1;
      var init := files[..n];
      HullExists(init);
      var l, h :| IsHull(init, l, h);
      var f := files[n];
      assert f in files && forall g :: g in init ==> g in files;
      assert forall g :: g in files ==> g in init || g == f;
      var l' := if Smallest(f).key < l then Smallest(f).key else l;
      var h' := if Largest(f).key > h then Largest(f).key else h;
      assert IsHull(files, l', h');
    }
  }

  lemma UnionCovered(in0: Level, in1: Level, lo: UserKey, hi: UserKey, L: UserKey, H: UserKey)
    requires IsHull(in0, lo, hi) && ValidFiles(in1) && IsHull(in0 + in1, L, H)
    requires forall f :: f in in1 ==> Overlaps(f, Some(lo), Some(hi))
    ensures Covered(in0, lo, hi) ==> Covered(in0 + in1, L, H)
  {
    if Covered(in0, lo, hi) {
      forall x | L <= x <= H ensures UnderSome(in0 + in1, x) {
        if lo <= x <= hi {
          assert UnderSome(in0, x);
          var f :| f in in0 && f.entries != [] && Covers(f, x);
          assert f in in0 + in1;
        } else if x < lo {
          var f :| f in in0 + in1 && Smallest(f).key == L;
          assert Covers(f, x);
        } else {
          var f :| f in in0 + in1 && Largest(f).key == H;
          assert Covers(f, x);
        }
      }
    }
  }

  lemma SeedStays(levels: seq<Level>, level: nat, seed: Level, in1: Level, expanded0: Level, L: UserKey, H: UserKey)
    requires ValidLevels(levels) && level + 1 < NUM_LEVELS
    requires ValidFiles(seed) && forall f :: f in seed ==> f in levels[level]
    requires ValidFiles(in1) && IsHull(seed + in1, L, H)
    requires forall f :: f in levels[level] && Overlaps(f, Some(L), Some(H)) ==> f in expanded0
    ensures forall f :: f in seed ==> f in expanded0
  {
    forall f | f in seed ensures f in expanded0 {
      assert f in seed + in1;
      assert f in levels[level];
      SmallestNotAfterLargest(f);
      assert Overlaps(f, Some(L), Some(H));
    }
  }

  lemma ExpandedCovered(all: Level, e0: Level, e1: Level, L: UserKey, H: UserKey, lo: UserKey, hi: UserKey,
                        l': UserKey, h': UserKey)
    requires ValidFiles(all) && IsHull(all, L, H) && Covered(all, L, H)
    requires IsHull(e0, lo, hi) && ValidFiles(e1) && IsHull(e0 + e1, l', h')
    requires forall f :: f in all ==> f in e0 + e1
    requires forall f :: f in e1 ==> Overlaps(f, Some(lo), Some(hi))
    requires forall x :: lo <= x <= hi && !(L <= x <= H) ==> UnderSome(e0, x)
    ensures Covered(e0 + e1, l', h')
  {
    forall x | l' <= x <= h' ensures UnderSome(e0 + e1, x) {
      if L <= x <= H {
        assert UnderSome(all, x);
        var f :| f in all && f.entries != [] && Covers(f, x);
        assert f in e0 + e1;
      } else if lo <= x <= hi {
        assert UnderSome(e0, x);
        var g :| g in e0 && g.entries != [] && Covers(g, x);
        assert g in e0 + e1;
      } else if x < lo {
        var f :| f in e0 + e1 && Smallest(f).key == l';
        assert Covers(f, x);
      } else {
        var f :| f in e0 + e1 && Largest(f).key == h';
        assert Covers(f, x);
      }
    }
  }

  /** An automatic compaction: the first file past the compaction pointer (wrapping
      around), or the file charged with too many seeks. */
  method PickCompaction(levels: seq<Level>, level: nat, sizeCompaction: bool, pointer: Option<InternalKey>,
                        seekFile: File, maxFileSize: nat)
    returns (in0: Level, in1: Level, ghost lo: UserKey, ghost hi: UserKey)
    requires ValidLevels(levels) && level + 1 < NUM_LEVELS
    requires sizeCompaction ==> levels[level] != []
    requires !sizeCompaction ==> seekFile in levels[level]
    ensures Picked(levels, level, in0, in1, lo, hi) && GapFree(in0, in1)
  {
    var picked := seekFile;
    if sizeCompaction {
      picked := levels[level][0];
      for i := 0 to |levels[level]|
        invariant picked == levels[level][0]
      {
        if pointer.None? || Less(pointer.value, Largest(levels[level][i])) {
          picked := levels[level][i];
          break;
        }
      }
    }
    assert picked in levels[level] && ValidFile(picked);
    var seed := [picked];
    var smallest, largest := GetRange(seed);
    HullOfOne(picked, smallest, largest);
    SmallestNotAfterLargest(picked);
    if level == 0 {
      seed := OverlappingLevelInputs(levels, 0, Some(smallest.key), Some(largest.key));
      assert picked in seed;
    }
    SeedCovered(seed, picked);
    in0, in1, lo, hi := SetupOtherInputs(levels, level, seed, maxFileSize);
  }

  lemma HullOfOne(f: File, smallest: InternalKey, largest: InternalKey)
    requires ValidFile(f) && IsHull([f], smallest.key, largest.key)
    ensures smallest.key == Smallest(f).key && largest.key == Largest(f).key
  {
    assert f in [f];
  }

  /** A seed that fills its hull around one of its own files has no hole. */
  lemma SeedCovered(seed: Level, f: File)
    requires ValidFiles(seed) && f in seed
    requires seed == [f] || FillsHull(seed, Some(Smallest(f).key), Some(Largest(f).key))
    ensures exists l, h :: IsHull(seed, l, h) && Covered(seed, l, h)
  {
    HullExists(seed);
    var l, h :| IsHull(seed, l, h);
    forall x | l <= x <= h ensures UnderSome(seed, x) {
      if InRange(x, Some(Smallest(f).key), Some(Largest(f).key)) {
        assert Covers(f, x);
      }
    }
  }

  /** A manual compaction of [begin, end]: above level 0 it stops after the file
      that reaches the size limit. */
  method CompactRange(levels: seq<Level>, level: nat, begin: Option<UserKey>, end: Option<UserKey>, maxFileSize: nat)
    returns (nothing: bool, in0: Level, in1: Level, ghost lo: UserKey, ghost hi: UserKey, ghost all: Level,
      ghost seed: Level)
    requires ValidLevels(levels) && level + 1 < NUM_LEVELS
    ensures Gathered(levels, level, begin, end, all) && (level > 0 ==> AllMeeting(levels[level], begin, end, all))
    ensures nothing <==> all == []
    ensures nothing ==> forall f :: f in levels[level] ==> !Overlaps(f, begin, end)
    ensures !nothing ==> Picked(levels, level, in0, in1, lo, hi) && forall f :: f in seed ==> f in in0
    ensures if level == 0 then seed == all else FirstReaching(all, seed, maxFileSize)
  {
    var inputs := MeetingLevelInputs(levels, level, begin, end);
    all, seed := inputs, inputs;
    in0, in1, lo, hi := [], [], 0, 0;
    if inputs == [] {
      return true, in0, in1, lo, hi, all, seed;
    }
    if level > 0 {
      inputs := CutAtLimit(inputs, maxFileSize);
      seed := inputs;
    }
    nothing := false;
    in0, in1, lo, hi := SetupOtherInputs(levels, level, inputs, maxFileSize);
  }

  /** The first files up to the one that reaches the limit, or all of them. */
  ghost predicate FirstReaching(all: Level, first: Level, limit: nat) {
    && first <= all && (all != [] ==> first != [])
    && (forall n :: 0 < n < |first| ==> TotalFileSize(all[..n]) < limit)
    && (|first| < |all| ==> TotalFileSize(first) >= limit)
  }

  method CutAtLimit(inputs: Level, limit: nat) returns (first: Level)
    requires inputs != []
    ensures FirstReaching(inputs, first, limit)
  {
    var total := 0;
    var i := 0;
    while i < |inputs|
      invariant i <= |inputs| && total == TotalFileSize(inputs[..i])
      invariant forall n :: 0 < n <= i ==> TotalFileSize(inputs[..n]) < limit
    {
      total := total + inputs[i].size;
      i := i + 1;
      assert inputs[..i][..i - 1] == inputs[..i - 1];
      if total >= limit {
        return inputs[..i];
      }
    }
    first := inputs;
    assert inputs[..|inputs|] == inputs;
  }

  /** A memtable covering [lo, hi] may be placed at level p. */
  ghost predicate MayLand(levels: seq<Level>, p: nat, lo: UserKey, hi: UserKey)
    requires |levels| == NUM_LEVELS && p <= MAX_MEM_COMPACT_LEVEL
  {
    p == 0 || forall j, f :: 0 <= j <= p && f in levels[j] && f.entries != [] ==> !Overlaps(f, Some(lo), Some(hi))
  }

  ghost predicate Meets(files: Level, lo: UserKey, hi: UserKey) {
    exists i :: 0 <= i < |files| && files[i].entries != [] && Overlaps(files[i], Some(lo), Some(hi))
  }

  /** A memtable may go from level j to the next: it meets nothing there, and not too much on the
      level after that. */
  ghost predicate MaySink(levels: seq<Level>, j: nat, lo: UserKey, hi: UserKey, maxFileSize: nat)
    requires |levels| == NUM_LEVELS && j < MAX_MEM_COMPACT_LEVEL
  {
    && !Meets(levels[j + 1], lo, hi)
    && exists all :: AllMeeting(levels[j + 2], Some(lo), Some(hi), all) && TotalFileSize(all) <= 10 * maxFileSize
  }

  method PickLevelForMemTableOutput(levels: seq<Level>, lo: UserKey, hi: UserKey, maxFileSize: nat) returns (level: nat)
    requires ValidLevels(levels)
    ensures level <= MAX_MEM_COMPACT_LEVEL && MayLand(levels, level, lo, hi)
    ensures forall j :: 0 <= j < level ==> MaySink(levels, j, lo, hi, maxFileSize)
    ensures level < MAX_MEM_COMPACT_LEVEL ==>
      Meets(levels[0], lo, hi) || !MaySink(levels, level, lo, hi, maxFileSize)
  {
    level := 0;
    var overlap0 := SomeFileOverlapsRange(false, levels[0], Some(lo), Some(hi));
    if !overlap0 {
      while level < MAX_MEM_COMPACT_LEVEL
        invariant level <= MAX_MEM_COMPACT_LEVEL
        invariant forall j :: 0 <= j < level ==> MaySink(levels, j, lo, hi, maxFileSize)
        invariant forall j, f :: 0 <= j <= level && f in levels[j] ==> !Overlaps(f, Some(lo), Some(hi))
      {
        var overlap := SomeFileOverlapsRange(true, levels[level + 1], Some(lo), Some(hi));
        if overlap {
          break;
        }
        assert forall f :: f in levels[level + 1] ==> !Overlaps(f, Some(lo), Some(hi));
        var overlaps := MeetingLevelInputs(levels, level + 2, Some(lo), Some(hi));
        if TotalFileSize(overlaps) > 10 * maxFileSize {
          break;
        }
        level := level + 1;
      }
    }
  }
}
