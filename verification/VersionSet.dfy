/** VersionSet: LogAndApply moves from version to version and writes the manifest; Recover
    rebuilds the last version from it. */
module VersionSets {
  import opened Wrappers
  import opened Coding
  import opened Keys
  import opened VersionEdits
  import opened VersionBuilder
  import opened Manifest

  /** An edit with the fields LogAndApply fills in. */
  function Completed(e: Edit, log: nat, prev: nat, next: nat, last: nat): Edit {
    e.(logNumber := if e.logNumber.Some? then e.logNumber else Some(log),
       prevLogNumber := if e.prevLogNumber.Some? then e.prevLogNumber else Some(prev),
       nextFile := Some(next), lastSequence := Some(last))
  }

  /** The edit may follow these: none of its files was added at its level before. */
  ghost predicate MayFollow(m: seq<Edit>, e: Edit) {
    GoodEdit(e) && forall l :: 0 <= l < NUM_LEVELS ==> FreshAt(Known(m, |m|, l), e.files, |e.files|, l)
  }

  lemma FollowGood(m: seq<Edit>, e: Edit)
    requires GoodManifest(m) && MayFollow(m, e)
    ensures GoodManifest(m + [e])
  {
    var more := m + [e];
    forall i, l | 0 <= i < |more| && 0 <= l < NUM_LEVELS
      ensures FreshAt(Known(more, i, l), more[i].files, |more[i].files|, l)
    {
      KnownSame(m, more, i, l);
    }
  }

  lemma FollowFiles(m: seq<Edit>, e: Edit, l: nat)
    ensures FilesAfter(m + [e], |m| + 1, l) == StepFiles(FilesAfter(m, |m|, l), e, l)
  {
    KnownSame(m, m + [e], |m|, l);
  }

  /** The file lists are what the edits say. */
  ghost predicate Holds(less: KeyLess, v: seq<Files>, m: seq<Edit>, n: nat)
    requires n <= |m|
  {
    |v| == NUM_LEVELS && forall l :: 0 <= l < NUM_LEVELS ==> Sorted(less, v[l]) && Elems(v[l]) == FilesAfter(m, n, l)
  }

  /** A builder over v that has been given some edits of m. */
  ghost predicate Building(base: seq<Files>, levels: seq<LevelState>, m: seq<Edit>, n: nat)
    requires n <= |m|
  {
    && |base| == |levels| == NUM_LEVELS
    && (forall l :: 0 <= l < NUM_LEVELS ==> Live(base[l], levels[l]) == FilesAfter(m, n, l))
    && forall l :: 0 <= l < NUM_LEVELS ==>
      NumberedIn(Elems(base[l]), Known(m, n, l)) && NumberedIn(Elems(levels[l].added), Known(m, n, l))
  }

  lemma BuildingStep(base: seq<Files>, levels: seq<LevelState>, levels': seq<LevelState>, m: seq<Edit>, n: nat)
    requires n < |m| && GoodManifest(m) && Building(base, levels, m, n) && |levels'| == NUM_LEVELS
    requires forall l :: 0 <= l < NUM_LEVELS ==> AppliedUpTo(levels[l], m[n], |m[n].files|, l, levels'[l])
    ensures Building(base, levels', m, n + 1)
  {
    forall l | 0 <= l < NUM_LEVELS
      ensures Live(base[l], levels'[l]) == FilesAfter(m, n + 1, l)
      ensures NumberedIn(Elems(levels'[l].added), Known(m, n + 1, l))
    {
      ApplyIsStep(base[l], levels[l], levels'[l], m[n], l, Known(m, n, l));
    }
  }

  /** The record that opens a new manifest: the comparator, the compaction pointers and all
      files, and no numbers. */
  ghost predicate IsSnapshot(e: Edit, comparator: Bytes, pointers: seq<(nat, Bytes)>, v: seq<Files>) {
    && e == NO_EDIT.(comparator := Some(comparator), pointers := pointers, files := e.files)
    && |v| == NUM_LEVELS && Lists(e.files, v, NUM_LEVELS)
  }

  method WriteSnapshot(comparator: Bytes, pointers: seq<(nat, Bytes)>, v: seq<Files>) returns (e: Edit)
    requires |v| == NUM_LEVELS && forall l :: 0 <= l < NUM_LEVELS ==> NumbersApart(v[l])
    ensures IsSnapshot(e, comparator, pointers, v)
  {
    var files: seq<(nat, FileMeta)> := [];
    for level := 0 to NUM_LEVELS
      invariant Lists(files, v, level)
    {
      ghost var before := files;
      for i := 0 to |v[level]|
        invariant files == before + Tagged(v[level][..i], level)
      {
        files := files + [(level, v[level][i])];
        assert Tagged(v[level][..i + 1], level) == Tagged(v[level][..i], level) + [(level, v[level][i])];
      }
      assert v[level][..|v[level]|] == v[level];
      ListsMore(before, v, level);
    }
    e := NO_EDIT.(comparator := Some(comparator), pointers := pointers, files := files);
  }

  lemma CurrentApart(less: KeyLess, v: seq<Files>, m: seq<Edit>, l: nat)
    requires IsOrder(less) && GoodManifest(m) && Holds(less, v, m, |m|) && l < NUM_LEVELS
    ensures NumbersApart(v[l])
  {
    LevelUnique(m, |m|, l);
    forall i, j | 0 <= i < j < |v[l]| ensures v[l][i].number != v[l][j].number {
      assert FLess(less, v[l][i], v[l][j]);
      assert v[l][i] in Elems(v[l]) && v[l][j] in Elems(v[l]);
    }
  }

  /** A manifest of nothing but a snapshot stands for the same version, and whatever may follow
      the old manifest may follow it. */
  lemma SnapshotStands(less: KeyLess, v: seq<Files>, m: seq<Edit>, snapshot: Edit, comparator: Bytes,
                       pointers: seq<(nat, Bytes)>, e: Edit)
    requires GoodManifest(m) && Holds(less, v, m, |m|) && MayFollow(m, e)
    requires IsSnapshot(snapshot, comparator, pointers, v)
    ensures GoodManifest([snapshot]) && Holds(less, v, [snapshot], 1) && MayFollow([snapshot], e)
  {
    var files := snapshot.files;
    forall l | 0 <= l < NUM_LEVELS
      ensures FreshAt({}, files, |files|, l) && Elems(v[l]) == FilesAfter([snapshot], 1, l)
      ensures FreshAt(Known([snapshot], 1, l), e.files, |e.files|, l)
    {
      ListsLevel(files, v, l);
      OneEdit(snapshot, l);
      FilesKnown(m, |m|, l);
      ListsNumbers(files, v, l, Known(m, |m|, l));
      FreshFewer(Known(m, |m|, l), NumbersAt(files, |files|, l), e.files, |e.files|, l);
    }
  }

  lemma OneEdit(e: Edit, l: nat)
    requires e.deleted == {}
    ensures Known([e], 0, l) == {} && Known([e], 1, l) == NumbersAt(e.files, |e.files|, l)
    ensures FilesAfter([e], 1, l) == FilesAt(e.files, |e.files|, l)
  {
    assert FilesAfter([e], 0, l) == {};
  }

  class VersionSet {
    const less: KeyLess
    const comparator: Bytes
    /** A manifest is being written; after opening the database it is not, until the first edit. */
    var hasDescriptorLog: bool
    var current: seq<Files>
    var logNumber: nat
    var prevLogNumber: nat
    var nextFile: nat
    var lastSequence: nat
    var manifest: seq<Edit>
    /** The next file number and the last sequence number when the manifest was last written. */
    ghost var recordedNext: nat
    ghost var recordedLast: nat

    ghost predicate Valid()
      reads this
    {
      && IsOrder(less) && GoodManifest(manifest) && Holds(less, current, manifest, |manifest|)
      && (manifest != [] ==>
            var k := MarksAfter(manifest, |manifest|);
            && k.log == Some(logNumber) && k.prev == Some(prevLogNumber)
            && k.next == Some(recordedNext) && k.last == Some(recordedLast)
            && recordedNext <= nextFile && recordedLast <= lastSequence)
    }

    constructor (less: KeyLess, comparator: Bytes)
      requires IsOrder(less)
      ensures Valid() && manifest == [] && !hasDescriptorLog
    {
      this.less, this.comparator, hasDescriptorLog := less, comparator, false;
      current := seq(NUM_LEVELS, _ => []);
      logNumber, prevLogNumber, nextFile, lastSequence, manifest := 0, 0, 2, 0, [];
      recordedNext, recordedLast := 2, 0;
    }

    /** What the next edit is written after: the manifest, or a snapshot in a new one. */
    method Descriptor(pointers: seq<(nat, Bytes)>, ghost edit: Edit) returns (base: seq<Edit>)
      requires Valid() && MayFollow(manifest, edit)
      ensures GoodManifest(base) && Holds(less, current, base, |base|) && MayFollow(base, edit)
      ensures if hasDescriptorLog then base == manifest
              else |base| == 1 && IsSnapshot(base[0], comparator, pointers, current)
    {
      if hasDescriptorLog {
        base := manifest;
      } else {
        forall l | 0 <= l < NUM_LEVELS ensures NumbersApart(current[l]) {
          CurrentApart(less, current, manifest, l);
        }
        var snapshot := WriteSnapshot(comparator, pointers, current);
        SnapshotStands(less, current, manifest, snapshot, comparator, pointers, edit);
        base := [snapshot];
      }
    }

    /** Takes the next version, if the manifest could be written; the first edit after opening
        the database starts a new manifest with a snapshot. */
    method LogAndApply(edit: Edit, pointers: seq<(nat, Bytes)>, ok: bool) returns (ghost base: seq<Edit>)
      requires Valid() && MayFollow(manifest, edit)
      requires edit.logNumber.Some? ==> logNumber <= edit.logNumber.value < nextFile
      modifies this
      ensures Valid() && nextFile == old(nextFile) && lastSequence == old(lastSequence)
      ensures !ok ==> manifest == old(manifest) && current == old(current) && logNumber == old(logNumber)
      ensures !ok ==> hasDescriptorLog == old(hasDescriptorLog)
      ensures ok ==> recordedNext == nextFile && recordedLast == lastSequence
      ensures ok ==> logNumber == if edit.logNumber.Some? then edit.logNumber.value else old(logNumber)
      ensures ok ==> prevLogNumber == if edit.prevLogNumber.Some? then edit.prevLogNumber.value else old(prevLogNumber)
      ensures if old(hasDescriptorLog) then base == old(manifest)
              else |base| == 1 && IsSnapshot(base[0], comparator, pointers, old(current))
      ensures ok ==> hasDescriptorLog
      ensures ok ==>
        manifest == base + [Completed(edit, old(logNumber), old(prevLogNumber), nextFile, lastSequence)]
      ensures ok ==> forall l :: 0 <= l < NUM_LEVELS ==> Elems(current[l]) == StepFiles(Elems(old(current)[l]), edit, l)
    {
      var e, v, written := Prepare(edit, pointers);
      base := written;
      if ok {
        Install(written + [e], e.logNumber.value, e.prevLogNumber.value, v);
      }
    }

    /** The completed edit, the version after it, and what the edit is written after. */
    method Prepare(edit: Edit, pointers: seq<(nat, Bytes)>) returns (e: Edit, v: seq<Files>, base: seq<Edit>)
      requires Valid() && MayFollow(manifest, edit)
      ensures e == Completed(edit, logNumber, prevLogNumber, nextFile, lastSequence)
      ensures if hasDescriptorLog then base == manifest
              else |base| == 1 && IsSnapshot(base[0], comparator, pointers, current)
      ensures GoodManifest(base + [e]) && Holds(less, v, base + [e], |base| + 1)
      ensures MarksAfter(base + [e], |base| + 1) == Marks(e.logNumber, e.prevLogNumber, e.nextFile, e.lastSequence)
      ensures forall l :: 0 <= l < NUM_LEVELS ==> Elems(v[l]) == StepFiles(Elems(current[l]), edit, l)
    {
      e := Completed(edit, logNumber, prevLogNumber, nextFile, lastSequence);
      v := NextVersion(less, current, e, manifest);
      base := Descriptor(pointers, e);
      NextHolds(less, current, base, e, v);
    }

    /** The new version and its numbers, once the edit is in the manifest. */
    method Install(m: seq<Edit>, log: nat, prev: nat, v: seq<Files>)
      requires IsOrder(less) && GoodManifest(m) && Holds(less, v, m, |m|)
      requires MarksAfter(m, |m|) == Marks(Some(log), Some(prev), Some(nextFile), Some(lastSequence))
      modifies this`manifest, this`hasDescriptorLog, this`current, this`logNumber, this`prevLogNumber,
        this`recordedNext, this`recordedLast
      ensures Valid() && manifest == m && hasDescriptorLog && current == v && logNumber == log && prevLogNumber == prev
      ensures recordedNext == nextFile && recordedLast == lastSequence
    {
      manifest, hasDescriptorLog, current, logNumber, prevLogNumber := m, true, v, log, prev;
      recordedNext, recordedLast := nextFile, lastSequence;
    }

    method NewFileNumber() returns (n: nat)
      requires Valid()
      modifies this`nextFile
      ensures Valid() && n == old(nextFile) && nextFile == n + 1
    {
      n := nextFile;
      nextFile := nextFile + 1;
    }

    method SetLastSequence(s: nat)
      requires Valid() && s >= lastSequence
      modifies this`lastSequence
      ensures Valid() && lastSequence == s
    {
      lastSequence := s;
    }
  }

  lemma NextHolds(less: KeyLess, current: seq<Files>, m: seq<Edit>, e: Edit, v: seq<Files>)
    requires GoodManifest(m) && Holds(less, current, m, |m|) && MayFollow(m, e) && |v| == NUM_LEVELS
    requires forall l :: 0 <= l < NUM_LEVELS ==> Sorted(less, v[l]) && Elems(v[l]) == StepFiles(Elems(current[l]), e, l)
    ensures GoodManifest(m + [e]) && Holds(less, v, m + [e], |m| + 1)
    ensures MarksAfter(m + [e], |m| + 1) == Mark(MarksAfter(m + [e], |m|), e)
  {
    FollowGood(m, e);
    forall l | 0 <= l < NUM_LEVELS ensures Elems(v[l]) == FilesAfter(m + [e], |m| + 1, l) {
      FollowFiles(m, e, l);
    }
  }

  /** One builder over the current version and one edit. */
  method NextVersion(less: KeyLess, current: seq<Files>, e: Edit, ghost m: seq<Edit>) returns (v: seq<Files>)
    requires IsOrder(less) && Holds(less, current, m, |m|) && MayFollow(m, e)
    ensures |v| == NUM_LEVELS
    ensures forall l :: 0 <= l < NUM_LEVELS ==> Sorted(less, v[l]) && Elems(v[l]) == StepFiles(Elems(current[l]), e, l)
  {
    var builder := new Builder(less, current);
    builder.Apply(e);
    forall l | 0 <= l < NUM_LEVELS
      ensures Live(current[l], builder.levels[l]) == StepFiles(Elems(current[l]), e, l)
      ensures Distinct(current[l], builder.levels[l].added)
    {
      FilesKnown(m, |m|, l);
      assert Live(current[l], NO_CHANGE) == Elems(current[l]);
      ApplyIsStep(current[l], NO_CHANGE, builder.levels[l], e, l, Known(m, |m|, l));
      AddedApart(current[l], builder.levels[l], e, l, Known(m, |m|, l));
    }
    v := builder.SaveTo();
  }

  /** New files are not among the old ones. */
  lemma AddedApart(base: seq<FileMeta>, st: LevelState, e: Edit, l: nat, known: set<nat>)
    requires AppliedUpTo(NO_CHANGE, e, |e.files|, l, st)
    requires FreshAt(known, e.files, |e.files|, l) && NumberedIn(Elems(base), known)
    ensures Distinct(base, st.added)
  {
    AddedIsUnion({}, known, e.files, |e.files|, l);
    FilesNumbered(e.files, |e.files|, l);
    NumbersFresh(known, e.files, |e.files|, l);
    assert Elems(NO_CHANGE.added) == {};
    forall f, g | f in base && g in st.added ensures f.number != g.number {
      assert f in Elems(base) && g in Elems(st.added);
    }
  }

  datatype Recovered = Recovered(files: seq<Files>, logNumber: nat, prevLogNumber: nat, nextFile: nat,
                                 lastSequence: nat)

  function ReadEdit(record: Bytes): Option<Edit> {
    Decode(NO_EDIT, record)
  }

  /** Read with f, the first n records hold these edits. */
  ghost predicate Records(f: Bytes -> Option<Edit>, records: seq<Bytes>, edits: seq<Edit>, n: nat)
    requires n <= |records|
  {
    |edits| == n && forall i :: 0 <= i < n ==> f(records[i]) == Some(edits[i])
  }

  lemma RecordsStep(f: Bytes -> Option<Edit>, records: seq<Bytes>, edits: seq<Edit>, n: nat, e: Edit)
    requires n < |records| && Records(f, records, edits, n) && f(records[n]) == Some(e)
    ensures Records(f, records, edits + [e], n + 1)
  {
  }

  /** Reading the records of a manifest; None exactly if one of them is corrupt. */
  method DecodeAll(records: seq<Bytes>) returns (r: Option<seq<Edit>>)
    ensures r.Some? ==> Records(ReadEdit, records, r.value, |records|)
    ensures r.None? ==> exists i :: 0 <= i < |records| && ReadEdit(records[i]) == None
  {
    var edits: seq<Edit> := [];
    for i := 0 to |records|
      invariant Records(ReadEdit, records, edits, i)
    {
      var e := DecodeFrom(records[i]);
      if e.None? {
        return None;
      }
      RecordsStep(ReadEdit, records, edits, i, e.value);
      edits := edits + [e.value];
    }
    return Some(edits);
  }

  /** The first n edits name this comparator or none. */
  predicate SameComparator(m: seq<Edit>, n: nat, comparator: Bytes)
    requires n <= |m|
  {
    forall i :: 0 <= i < n && m[i].comparator.Some? ==> m[i].comparator.value == comparator
  }

  /** The fields Recover reads off one edit. */
  method ReadMarks(k0: Marks, e: Edit) returns (k: Marks)
    ensures k == Mark(k0, e)
  {
    k := k0;
    if e.logNumber.Some? {
      k := k.(log := e.logNumber);
    }
    if e.prevLogNumber.Some? {
      k := k.(prev := e.prevLogNumber);
    }
    if e.nextFile.Some? {
      k := k.(next := e.nextFile);
    }
    if e.lastSequence.Some? {
      k := k.(last := e.lastSequence);
    }
  }

  /** Recover's loop as far as it checks comparators and reads numbers. */
  method ReadAllMarks(m: seq<Edit>, comparator: Bytes) returns (ok: bool, k: Marks)
    ensures ok <==> SameComparator(m, |m|, comparator)
    ensures ok ==> k == MarksAfter(m, |m|)
  {
    k := Marks(None, None, None, None);
    for i := 0 to |m|
      invariant SameComparator(m, i, comparator) && k == MarksAfter(m, i)
    {
      if m[i].comparator.Some? && m[i].comparator.value != comparator {
        return false, k;
      }
      k := ReadMarks(k, m[i]);
    }
    ok := true;
  }

  /** Recover's loop as far as it concerns files: all edits into one builder over the empty
      version. */
  method ReplayEdits(less: KeyLess, m: seq<Edit>) returns (files: seq<Files>)
    requires IsOrder(less) && GoodManifest(m)
    ensures Holds(less, files, m, |m|)
  {
    var empty: seq<Files> := seq(NUM_LEVELS, _ => []);
    var builder := new Builder(less, empty);
    EmptyBuilding(empty, builder.levels, m);
    FeedAll(builder, m);
    files := builder.SaveTo();
    BuildingDone(less, empty, builder.levels, files, m);
  }

  method FeedAll(builder: Builder, m: seq<Edit>)
    requires GoodManifest(m) && builder.Valid() && Building(builder.base, builder.levels, m, 0)
    modifies builder
    ensures builder.Valid() && Building(builder.base, builder.levels, m, |m|)
  {
    for i := 0 to |m|
      invariant builder.Valid() && Building(builder.base, builder.levels, m, i)
    {
      Feed(builder, m, i);
    }
  }

  lemma BuildingDone(less: KeyLess, base: seq<Files>, levels: seq<LevelState>, files: seq<Files>, m: seq<Edit>)
    requires Building(base, levels, m, |m|) && |files| == NUM_LEVELS
    requires forall l :: 0 <= l < NUM_LEVELS ==> Sorted(less, files[l]) && Elems(files[l]) == Live(base[l], levels[l])
    ensures Holds(less, files, m, |m|)
  {
  }

  /** One more edit for the builder. */
  method Feed(builder: Builder, m: seq<Edit>, i: nat)
    requires i < |m| && GoodManifest(m) && builder.Valid() && Building(builder.base, builder.levels, m, i)
    modifies builder
    ensures builder.Valid() && Building(builder.base, builder.levels, m, i + 1)
  {
    ghost var levels := builder.levels;
    builder.Apply(m[i]);
    BuildingStep(builder.base, levels, builder.levels, m, i);
  }

  lemma EmptyBuilding(empty: seq<Files>, levels: seq<LevelState>, m: seq<Edit>)
    requires |empty| == |levels| == NUM_LEVELS
    requires forall l :: 0 <= l < NUM_LEVELS ==> empty[l] == [] && levels[l] == NO_CHANGE
    ensures Building(empty, levels, m, 0)
  {
    assert forall l :: 0 <= l < NUM_LEVELS ==> Live(empty[l], NO_CHANGE) == {};
  }

  /** Recover: the replayed version and numbers, or an error if one is missing. */
  method Recover(less: KeyLess, m: seq<Edit>, comparator: Bytes) returns (r: Option<Recovered>)
    requires IsOrder(less) && GoodManifest(m)
    ensures var k := MarksAfter(m, |m|);
      r.Some? <==> SameComparator(m, |m|, comparator) && k.next.Some? && k.log.Some? && k.last.Some?
    ensures r.Some? ==> Holds(less, r.value.files, m, |m|)
    ensures r.Some? ==> var k := MarksAfter(m, |m|);
      && k.log == Some(r.value.logNumber) && k.last == Some(r.value.lastSequence)
      && k.next == Some(r.value.nextFile - 1)
      && r.value.prevLogNumber == if k.prev.Some? then k.prev.value else 0
  {
    var ok, k := ReadAllMarks(m, comparator);
    if !ok || k.next.None? || k.log.None? || k.last.None? {
      return None;
    }
    var files := ReplayEdits(less, m);
    return Some(Recovered(files, k.log.value, if k.prev.Some? then k.prev.value else 0, k.next.value + 1,
                k.last.value));
  }

  lemma SameLists(less: KeyLess, v: seq<Files>, w: seq<Files>, m: seq<Edit>, n: nat)
    requires IsOrder(less) && n <= |m| && Holds(less, v, m, n) && Holds(less, w, m, n)
    ensures v == w
  {
    forall l | 0 <= l < NUM_LEVELS ensures v[l] == w[l] {
      SortedUnique(less, v[l], w[l]);
    }
  }
}
