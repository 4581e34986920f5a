/** Version::Get: the level-by-level search, and why the first hit is the newest
    entry whenever shallower data is newer than deeper data. */
module VersionLookup {
  import opened Wrappers
  import opened DbFormat
  import opened VersionFiles

  /** A reader of k at s sees something in f. */
  ghost predicate Sees(f: File, k: UserKey, s: nat) {
    exists e :: e in f.entries && e.key == k && e.sn <= s
  }

  ghost function Contents(f: File): set<Entry> {
    set e | e in f.entries
  }

  /** Table lookup as a linear search: the first entry at or after the lookup key,
      kept only if it has the same user key. */
  function TableGet(entries: seq<Entry>, k: UserKey, s: nat): Option<Entry> {
    if entries == [] then None
    else if Less(IKey(entries[0]), LookupKey(k, s)) then TableGet(entries[1..], k, s)
    else if entries[0].key == k then Some(entries[0])
    else None
  }

  /** On sorted entries the linear search finds exactly the newest visible entry. */
  lemma {:induction false} TableGetFindsNewest(entries: seq<Entry>, k: UserKey, s: nat)
    requires SortedEntries(entries)
    ensures forall e :: TableGet(entries, k, s) == Some(e) <==>
                        e in entries && e.key == k && e.sn <= s &&
                        forall f :: f in entries && f.key == k && f.sn <= s ==> f == e || LessE(e, f)
    ensures TableGet(entries, k, s).None? ==> forall f :: f in entries && f.key == k ==> f.sn > s
  {
    if entries != [] {
      var h, t := entries[0], entries[1..];
      forall e | e in t ensures LessE(h, e) {
        var i :| 0 <= i < |t| && t[i] == e;
        assert e == entries[i + 1];
      }
      assert forall e :: e in entries <==> e == h || e in t;
      if Less(IKey(h), LookupKey(k, s)) {
        TableGetFindsNewest(t, k, s);
      }
    }
  }

  lemma TableGetInFile(f: File, k: UserKey, s: nat)
    requires ValidFile(f)
    ensures TableGet(f.entries, k, s).Some? <==> Sees(f, k, s)
    ensures forall e :: TableGet(f.entries, k, s) == Some(e) ==> Newest(Contents(f), k, s, e)
  {
    TableGetFindsNewest(f.entries, k, s);
  }

  ghost predicate ValidLevels(levels: seq<Level>) {
    && |levels| == NUM_LEVELS
    && ValidFiles(levels[0])
    && (forall i, j :: 0 <= i < j < |levels[0]| ==> levels[0][i].number != levels[0][j].number)
    && (forall l :: 1 <= l < NUM_LEVELS ==> SortedLevel(levels[l]))
  }

  ghost predicate Blind(files: Level, k: UserKey, s: nat) {
    forall g :: g in files ==> !Sees(g, k, s)
  }

  /** f is the file of its level that a lookup stops at. */
  ghost predicate StopsAt(level: nat, files: Level, f: File, k: UserKey, s: nat) {
    && f in files && Sees(f, k, s)
    && (level == 0 ==> forall g :: g in files && g.number > f.number ==> !Sees(g, k, s))
    && (level > 0 ==> forall i, j :: 0 <= i < j < |files| && files[j] == f ==> !Sees(files[i], k, s))
  }

  /** The answer of a search that tries the levels in order, level 0 by falling
      file number. */
  ghost predicate Finds(levels: seq<Level>, k: UserKey, s: nat, r: Option<Entry>) {
    match r
    case None => forall l :: 0 <= l < |levels| ==> Blind(levels[l], k, s)
    case Some(e) => exists l, f :: 0 <= l < |levels| && StopsAt(l, levels[l], f, k, s)
                      && TableGet(f.entries, k, s) == Some(e)
                      && forall l' :: 0 <= l' < l ==> Blind(levels[l'], k, s)
  }

  predicate NewestFirst(files: Level) {
    forall i, j :: 0 <= i < j < |files| ==> files[i].number > files[j].number
  }

  /** Adds f to a list kept in falling order of file number. */
  method InsertNewestFirst(files: Level, f: File) returns (r: Level)
    requires NewestFirst(files) && forall g :: g in files ==> g.number != f.number
    ensures NewestFirst(r)
    ensures forall g :: g in r <==> g in files || g == f
  {
    var i := 0;
    while i < |files| && files[i].number > f.number
      invariant i <= |files|
      invariant forall j :: 0 <= j < i ==> files[j].number > f.number
    {
      i := i + 1;
    }
    r := files[..i] + [f] + files[i..];
    if i < |files| {
      assert files[i] in files;
    }
    SplicedMembers(files, i, f);
  }

  lemma SplicedMembers<T>(s: seq<T>, i: nat, x: T)
    requires i <= |s|
    ensures forall y :: y in s[..i] + [x] + s[i..] <==> y in s || y == x
  {
    assert s == s[..i] + s[i..];
  }

  /** The level-0 candidates of a lookup, newest file first. */
  method Level0Candidates(files: Level, k: UserKey) returns (tmp: Level)
    requires ValidFiles(files)
    requires forall i, j :: 0 <= i < j < |files| ==> files[i].number != files[j].number
    ensures NewestFirst(tmp)
    ensures forall g :: g in tmp ==> g in files
    ensures forall g :: g in files && Covers(g, k) ==> g in tmp
  {
    tmp := [];
    for i := 0 to |files|
      invariant NewestFirst(tmp)
      invariant forall g :: g in tmp ==> g in files[..i]
      invariant forall g :: g in files[..i] && Covers(g, k) ==> g in tmp
    {
      assert files[..i + 1] == files[..i] + [files[i]];
      if k >= Smallest(files[i]).key && k <= Largest(files[i]).key {
        forall g | g in tmp ensures g.number != files[i].number {
          var j :| 0 <= j < i && files[j] == g;
        }
        tmp := InsertNewestFirst(tmp, files[i]);
      }
    }
    assert files[..|files|] == files;
  }

  lemma SeesCovers(f: File, k: UserKey, s: nat)
    requires ValidFile(f) && Sees(f, k, s)
    ensures Covers(f, k) && !Less(Largest(f), LookupKey(k, s))
  {
    var e :| e in f.entries && e.key == k && e.sn <= s;
    EntryInRange(f, e);
  }

  /** The search of one level below the first: the file found by binary search, or nothing. */
  ghost function SearchLevel(files: Level, k: UserKey, s: nat): Option<Entry>
    requires NonEmpty(files)
  {
    var index := SearchFrom(files, LookupKey(k, s), 0, |files|);
    if index >= |files| || k < Smallest(files[index]).key then None else TableGet(files[index].entries, k, s)
  }

  method SearchLevelBelow(files: Level, k: UserKey, s: nat) returns (r: Option<Entry>)
    requires NonEmpty(files)
    ensures r == SearchLevel(files, k, s)
  {
    var index := FindFile(files, LookupKey(k, s));
    if index >= |files| || k < Smallest(files[index]).key {
      return None;
    }
    r := TableGet(files[index].entries, k, s);
  }

  /** In a sorted level only the file found by binary search can hold the answer. */
  lemma SearchSortedLevel(files: Level, k: UserKey, s: nat) returns (f: File)
    requires SortedLevel(files)
    ensures SearchLevel(files, k, s).None? ==> Blind(files, k, s)
    ensures SearchLevel(files, k, s).Some? ==>
      StopsAt(1, files, f, k, s) && TableGet(f.entries, k, s) == SearchLevel(files, k, s)
  {
    var index := SearchFrom(files, LookupKey(k, s), 0, |files|);
    SearchFinds(files, LookupKey(k, s), 0, |files|);
    f := File(0, 0, []);
    BlindBefore(files, k, s, index);
    if index < |files| {
      f := files[index];
      BlindAfter(files, k, s, index);
      TableGetInFile(f, k, s);
      if k < Smallest(f).key {
        OutsideUnseen(f, k, s);
      } else if SearchLevel(files, k, s).Some? {
        forall i, j | 0 <= i < j < |files| && files[j] == f ensures !Sees(files[i], k, s) {
          if index < j {
            SortedLevelEnds(files, index, j);
          }
        }
      }
    }
  }

  lemma OutsideUnseen(f: File, k: UserKey, s: nat)
    requires ValidFile(f) && k < Smallest(f).key
    ensures !Sees(f, k, s)
  {
    if Sees(f, k, s) {
      SeesCovers(f, k, s);
      assert false;
    }
  }

  lemma BlindBefore(files: Level, k: UserKey, s: nat, index: nat)
    requires SortedLevel(files) && FirstAtOrAfter(files, LookupKey(k, s), index)
    ensures forall i :: 0 <= i < index ==> !Sees(files[i], k, s)
  {
    forall i | 0 <= i < index ensures !Sees(files[i], k, s) {
      if Sees(files[i], k, s) {
        SeesCovers(files[i], k, s);
        assert false;
      }
    }
  }

  /** Files after index hold k only if index holds it at the end, so its answer wins. */
  lemma BlindAfter(files: Level, k: UserKey, s: nat, index: nat)
    requires SortedLevel(files) && FirstAtOrAfter(files, LookupKey(k, s), index) && index < |files|
    ensures forall i :: index < i < |files| && Sees(files[i], k, s) ==> Sees(files[index], k, s)
    ensures k < Smallest(files[index]).key ==> forall i :: index < i < |files| ==> !Sees(files[i], k, s)
  {
    forall i | index < i < |files| && Sees(files[i], k, s)
      ensures Sees(files[index], k, s) && Smallest(files[index]).key <= k
    {
      SeesCovers(files[i], k, s);
      SortedLevelEnds(files, index, i);
      SmallestNotAfterLargest(files[index]);
      var last := files[index].entries[|files[index].entries| - 1];
      assert Largest(files[index]) == IKey(last) && last in files[index].entries;
      assert Largest(files[index]).key <= Smallest(files[i]).key <= k;
      assert last.key == k;
    }
  }

  /** The search of the levels from l on. */
  ghost function SearchLevels(levels: seq<Level>, k: UserKey, s: nat, l: nat): Option<Entry>
    requires l <= |levels| && forall i :: 0 <= i < |levels| ==> NonEmpty(levels[i])
    decreases |levels| - l
  {
    if l == |levels| then None
    else
      var r := SearchLevel(levels[l], k, s);
      if r.Some? then r else SearchLevels(levels, k, s, l + 1)
  }

  lemma HitFinds(levels: seq<Level>, k: UserKey, s: nat, l: nat, f: File)
    requires l < |levels| && StopsAt(l, levels[l], f, k, s) && TableGet(f.entries, k, s).Some?
    requires forall i :: 0 <= i < l ==> Blind(levels[i], k, s)
    ensures Finds(levels, k, s, TableGet(f.entries, k, s))
  {
  }

  /** What the search of the levels below the first finds, when they are sorted. */
  lemma {:induction false} SearchLevelsFinds(levels: seq<Level>, k: UserKey, s: nat, l: nat)
    requires |levels| == NUM_LEVELS && 1 <= l <= |levels| && forall i :: 0 <= i < |levels| ==> NonEmpty(levels[i])
    requires (forall i :: l <= i < |levels| ==> SortedLevel(levels[i]))
    requires forall i :: 0 <= i < l ==> Blind(levels[i], k, s)
    ensures Finds(levels, k, s, SearchLevels(levels, k, s, l))
    decreases |levels| - l
  {
    if l < |levels| {
      var f := SearchSortedLevel(levels[l], k, s);
      if SearchLevel(levels[l], k, s).Some? {
        HitFinds(levels, k, s, l, f);
      } else {
        SearchLevelsFinds(levels, k, s, l + 1);
      }
    }
  }

  /** Every file is well formed, and level 0 has no number twice; levels need not be sorted. */
  ghost predicate WellFormed(levels: seq<Level>) {
    && |levels| == NUM_LEVELS && (forall l :: 0 <= l < NUM_LEVELS ==> ValidFiles(levels[l]))
    && forall i, j :: 0 <= i < j < |levels[0]| ==> levels[0][i].number != levels[0][j].number
  }

  /** The search of level 0: the newest file that sees the key. */
  method SearchLevel0(files: Level, k: UserKey, s: nat) returns (r: Option<Entry>, ghost f: File)
    requires ValidFiles(files) && forall i, j :: 0 <= i < j < |files| ==> files[i].number != files[j].number
    ensures r.None? ==> Blind(files, k, s)
    ensures r.Some? ==> StopsAt(0, files, f, k, s) && TableGet(f.entries, k, s) == r
  {
    f := File(0, 0, []);
    var tmp := Level0Candidates(files, k);
    for i := 0 to |tmp|
      invariant forall j :: 0 <= j < i ==> !Sees(tmp[j], k, s)
    {
      assert tmp[i] in files;
      r := TableGet(tmp[i].entries, k, s);
      TableGetInFile(tmp[i], k, s);
      if r.Some? {
        f := tmp[i];
        forall g | g in files && g.number > f.number ensures !Sees(g, k, s) {
          if Sees(g, k, s) {
            SeesCovers(g, k, s);
            assert false;
          }
        }
        return;
      }
    }
    r := None;
    forall g | g in files ensures !Sees(g, k, s) {
      if Sees(g, k, s) {
        SeesCovers(g, k, s);
        assert false;
      }
    }
  }

  /** Version::Get; the levels below the first are searched as if they were sorted. */
  method Get(levels: seq<Level>, k: UserKey, s: nat) returns (r: Option<Entry>)
    requires WellFormed(levels)
    ensures ValidLevels(levels) ==> Finds(levels, k, s, r)
    ensures levels[0] == [] ==> r == SearchLevels(levels, k, s, 1)
  {
    ghost var f;
    r, f := SearchLevel0(levels[0], k, s);
    if r.Some? {
      assert StopsAt(0, levels[0], f, k, s);
      return;
    }
    ghost var answer := SearchLevels(levels, k, s, 1);
    var level := 1;
    while level < NUM_LEVELS
      invariant 1 <= level <= NUM_LEVELS && r.None? && answer == SearchLevels(levels, k, s, level)
    {
      r := SearchLevelBelow(levels[level], k, s);
      if r.Some? {
        break;
      }
      level := level + 1;
    }
    if ValidLevels(levels) {
      SearchLevelsFinds(levels, k, s, 1);
    }
  }

  // ---- Why the first hit is the newest ----

  /** Every entry of f that shares a user key with one of g is newer. */
  ghost predicate Newer(f: File, g: File) {
    forall a, b :: a in f.entries && b in g.entries && a.key == b.key ==> a.sn > b.sn
  }

  /** Shallower data is newer: level 0 by file number, then level by level. */
  ghost predicate Ordered(levels: seq<Level>) {
    && (forall f, g :: |levels| > 0 && f in levels[0] && g in levels[0] && f.number > g.number ==> Newer(f, g))
    && (forall i, j, f, g :: 0 <= i < j < |levels| && f in levels[i] && g in levels[j] ==> Newer(f, g))
  }

  ghost predicate Stored(levels: seq<Level>, e: Entry) {
    exists l, f :: 0 <= l < |levels| && f in levels[l] && e in f.entries
  }

  /** A hit is at least as new as every visible stored entry. */
  lemma FirstHitIsNewest(levels: seq<Level>, k: UserKey, s: nat, e: Entry, x: Entry)
    requires ValidLevels(levels) && Ordered(levels)
    requires Finds(levels, k, s, Some(e))
    requires Stored(levels, x) && x.key == k && x.sn <= s
    ensures e.key == k && e.sn <= s && Stored(levels, e) && x.sn <= e.sn
  {
    var l, f :| 0 <= l < |levels| && StopsAt(l, levels[l], f, k, s) && TableGet(f.entries, k, s) == Some(e)
                && forall l' :: 0 <= l' < l ==> Blind(levels[l'], k, s);
    var m, g :| 0 <= m < |levels| && g in levels[m] && x in g.entries;
    TableGetInFile(f, k, s);
    assert e in f.entries;
    HitBeats(levels, k, s, l, f, e, m, g, x);
  }

  lemma HitBeats(levels: seq<Level>, k: UserKey, s: nat, l: nat, f: File, e: Entry, m: nat, g: File, x: Entry)
    requires ValidLevels(levels) && Ordered(levels)
    requires l < |levels| && StopsAt(l, levels[l], f, k, s) && Newest(Contents(f), k, s, e)
    requires forall l' :: 0 <= l' < l ==> Blind(levels[l'], k, s)
    requires m < |levels| && g in levels[m] && x in g.entries && x.key == k && x.sn <= s
    ensures x.sn <= e.sn
  {
    assert Sees(g, k, s);
    if f == g {
      assert x in Contents(f);
    } else if l < m {
      assert Newer(f, g);
    } else if m < l {
      assert false;
    } else if l == 0 {
      assert g.number != f.number by { DifferentNumbers(levels[0], f, g); }
      assert Newer(f, g);
    } else {
      SameLevelHit(levels[l], k, s, f, e, g, x);
    }
  }

  lemma DifferentNumbers(files: Level, f: File, g: File)
    requires forall i, j :: 0 <= i < j < |files| ==> files[i].number != files[j].number
    requires f in files && g in files && f != g
    ensures f.number != g.number
  {
    var i :| 0 <= i < |files| && files[i] == f;
    var j :| 0 <= j < |files| && files[j] == g;
    assert if i < j then files[i].number != files[j].number else files[j].number != files[i].number;
  }

  lemma SameLevelHit(files: Level, k: UserKey, s: nat, f: File, e: Entry, g: File, x: Entry)
    requires SortedLevel(files) && StopsAt(1, files, f, k, s) && g in files && f != g
    requires e in f.entries && e.key == k && x in g.entries && x.key == k && x.sn <= s
    ensures x.sn <= e.sn
  {
    var i :| 0 <= i < |files| && files[i] == f;
    var j :| 0 <= j < |files| && files[j] == g;
    assert Sees(g, k, s);
    assert i < j;
    EntryInRange(f, e);
    EntryInRange(g, x);
    assert Less(Largest(f), Smallest(g));
  }
}
