/** Replaying the manifest: one Builder fed with all edits rebuilds what LogAndApply built
    one edit at a time. */
module Manifest {
  import opened Wrappers
  import opened Keys
  import opened VersionEdits
  import opened VersionBuilder

  predicate GoodEdit(e: Edit) {
    && (forall d :: d in e.deleted ==> d.0 < NUM_LEVELS)
    && forall i :: 0 <= i < |e.files| ==> e.files[i].0 < NUM_LEVELS
  }

  // ---- What edits mean for one level ----

  /** Numbers of the first n new files that go to level l. */
  ghost function NumbersAt(files: seq<(nat, FileMeta)>, n: nat, l: nat): set<nat>
    requires n <= |files|
  {
    if n == 0 then {} else NumbersAt(files, n - 1, l) + if files[n - 1].0 == l then {files[n - 1].1.number} else {}
  }

  ghost function FilesAt(files: seq<(nat, FileMeta)>, n: nat, l: nat): set<FileMeta>
    requires n <= |files|
  {
    if n == 0 then {} else FilesAt(files, n - 1, l) + if files[n - 1].0 == l then {files[n - 1].1} else {}
  }

  /** The files of level l after an edit. */
  ghost function StepFiles(V: set<FileMeta>, e: Edit, l: nat): set<FileMeta> {
    (set f | f in V && (l, f.number) !in e.deleted) + FilesAt(e.files, |e.files|, l)
  }

  /** Insertion into the set of added files; an equal file is not inserted again. */
  ghost function InsertElem(S: set<FileMeta>, f: FileMeta): set<FileMeta> {
    if exists g :: g in S && g.smallest == f.smallest && g.number == f.number then S else S + {f}
  }

  ghost function AddedAt(S: set<FileMeta>, files: seq<(nat, FileMeta)>, n: nat, l: nat): set<FileMeta>
    requires n <= |files|
  {
    if n == 0 then S
    else if files[n - 1].0 == l then InsertElem(AddedAt(S, files, n - 1, l), files[n - 1].1)
    else AddedAt(S, files, n - 1, l)
  }

  /** Apply's effect on a level, after the deletions and the first n new files. */
  ghost predicate AppliedUpTo(st: LevelState, e: Edit, n: nat, l: nat, st': LevelState)
    requires n <= |e.files|
  {
    && (forall k :: k in st'.deleted <==> (k in st.deleted || (l, k) in e.deleted) && k !in NumbersAt(e.files, n, l))
    && Elems(st'.added) == AddedAt(Elems(st.added), e.files, n, l)
  }

  class Builder {
    const less: KeyLess
    const base: seq<Files>
    var levels: seq<LevelState>

    ghost predicate Valid()
      reads this
    {
      && IsOrder(less) && |base| == |levels| == NUM_LEVELS
      && (forall l :: 0 <= l < NUM_LEVELS ==> Sorted(less, base[l]))
      && forall l :: 0 <= l < NUM_LEVELS ==> Sorted(less, levels[l].added)
    }

    constructor (less: KeyLess, base: seq<Files>)
      requires IsOrder(less) && |base| == NUM_LEVELS && forall l :: 0 <= l < NUM_LEVELS ==> Sorted(less, base[l])
      ensures Valid() && this.less == less && this.base == base && levels == seq(NUM_LEVELS, _ => NO_CHANGE)
    {
      this.less := less;
      this.base := base;
      levels := seq(NUM_LEVELS, _ => NO_CHANGE);
    }

    method DeleteFiles(deleted: set<(nat, nat)>)
      requires Valid() && forall d :: d in deleted ==> d.0 < NUM_LEVELS
      modifies this
      ensures Valid()
      ensures forall l :: 0 <= l < NUM_LEVELS ==> levels[l].added == old(levels)[l].added
      ensures forall l, k :: 0 <= l < NUM_LEVELS ==>
        (k in levels[l].deleted <==> k in old(levels)[l].deleted || (l, k) in deleted)
    {
      var rest := deleted;
      while rest != {}
        invariant Valid() && rest <= deleted
        invariant forall l :: 0 <= l < NUM_LEVELS ==> levels[l].added == old(levels)[l].added
        invariant forall l, k :: 0 <= l < NUM_LEVELS ==>
          (k in levels[l].deleted <==> k in old(levels)[l].deleted || ((l, k) in deleted && (l, k) !in rest))
        decreases |rest|
      {
        var d :| d in rest;
        levels := levels[d.0 := levels[d.0].(deleted := levels[d.0].deleted + {d.1})];
        rest := rest - {d};
      }
    }

    method AddFile(l: nat, f: FileMeta)
      requires Valid() && l < NUM_LEVELS
      modifies this
      ensures Valid() && forall j :: 0 <= j < NUM_LEVELS && j != l ==> levels[j] == old(levels)[j]
      ensures levels[l].deleted == old(levels)[l].deleted - {f.number}
      ensures Elems(levels[l].added) == InsertElem(Elems(old(levels)[l].added), f)
    {
      var added := Insert(less, levels[l].added, f);
      EqualElem(levels[l].added, f);
      levels := levels[l := LevelState(levels[l].deleted - {f.number}, added)];
    }

    method Apply(e: Edit)
      requires Valid() && GoodEdit(e)
      modifies this
      ensures Valid()
      ensures forall l :: 0 <= l < NUM_LEVELS ==> AppliedUpTo(old(levels)[l], e, |e.files|, l, levels[l])
    {
      DeleteFiles(e.deleted);
      for i := 0 to |e.files|
        invariant Valid()
        invariant forall l :: 0 <= l < NUM_LEVELS ==> AppliedUpTo(old(levels)[l], e, i, l, levels[l])
      {
        AddFile(e.files[i].0, e.files[i].1);
      }
    }

    /** SaveTo: the new file list of every level. */
    method SaveTo() returns (v: seq<Files>)
      requires Valid() && forall l :: 0 <= l < NUM_LEVELS ==> Distinct(base[l], levels[l].added)
      ensures |v| == NUM_LEVELS
      ensures forall l :: 0 <= l < NUM_LEVELS ==> Sorted(less, v[l]) && Elems(v[l]) == Live(base[l], levels[l])
    {
      v := [];
      for l := 0 to NUM_LEVELS
        invariant |v| == l && forall j :: 0 <= j < l ==> Sorted(less, v[j]) && Elems(v[j]) == Live(base[j], levels[j])
      {
        var files := SaveLevel(less, base[l], levels[l]);
        v := v + [files];
      }
    }
  }

  lemma EqualElem(fs: seq<FileMeta>, f: FileMeta)
    ensures HasEqual(fs, f) <==> exists g :: g in Elems(fs) && g.smallest == f.smallest && g.number == f.number
  {
    if i :| 0 <= i < |fs| && fs[i].smallest == f.smallest && fs[i].number == f.number {
      assert fs[i] in Elems(fs);
    }
  }

  // ---- No number twice at a level ----

  /** The first n new files that go to level l have new numbers, each once. */
  ghost predicate FreshAt(known: set<nat>, files: seq<(nat, FileMeta)>, n: nat, l: nat)
    requires n <= |files|
  {
    forall i :: 0 <= i < n && files[i].0 == l ==>
      files[i].1.number !in known && files[i].1.number !in NumbersAt(files, i, l)
  }

  ghost predicate NumberedIn(S: set<FileMeta>, known: set<nat>) {
    forall f :: f in S ==> f.number in known
  }

  lemma {:induction false} FilesNumbered(files: seq<(nat, FileMeta)>, n: nat, l: nat)
    requires n <= |files|
    ensures NumberedIn(FilesAt(files, n, l), NumbersAt(files, n, l))
  {
    if n > 0 {
      FilesNumbered(files, n - 1, l);
    }
  }

  lemma {:induction false} AddedIsUnion(S: set<FileMeta>, known: set<nat>, files: seq<(nat, FileMeta)>, n: nat, l: nat)
    requires n <= |files| && NumberedIn(S, known) && FreshAt(known, files, n, l)
    ensures AddedAt(S, files, n, l) == S + FilesAt(files, n, l)
  {
    if n > 0 {
      AddedIsUnion(S, known, files, n - 1, l);
      FilesNumbered(files, n - 1, l);
    }
  }

  /** Applying one more edit to a builder moves its level to the next version's level. */
  lemma ApplyIsStep(base: seq<FileMeta>, st: LevelState, st': LevelState, e: Edit, l: nat, known: set<nat>)
    requires AppliedUpTo(st, e, |e.files|, l, st') && FreshAt(known, e.files, |e.files|, l)
    requires NumberedIn(Elems(base), known) && NumberedIn(Elems(st.added), known)
    ensures Live(base, st') == StepFiles(Live(base, st), e, l)
    ensures NumberedIn(Elems(st'.added), known + NumbersAt(e.files, |e.files|, l))
  {
    var n := |e.files|;
    AddedIsUnion(Elems(st.added), known, e.files, n, l);
    FilesNumbered(e.files, n, l);
    NumbersFresh(known, e.files, n, l);
    forall f ensures f in Live(base, st') <==> f in StepFiles(Live(base, st), e, l) {
    }
  }

  lemma {:induction false} NumbersFresh(known: set<nat>, files: seq<(nat, FileMeta)>, n: nat, l: nat)
    requires n <= |files| && FreshAt(known, files, n, l)
    ensures NumbersAt(files, n, l) !! known
  {
    if n > 0 {
      NumbersFresh(known, files, n - 1, l);
    }
  }

  // ---- Runs of edits ----

  /** Numbers added at level l by the first n edits. */
  ghost function Known(m: seq<Edit>, n: nat, l: nat): set<nat>
    requires n <= |m|
  {
    if n == 0 then {} else Known(m, n - 1, l) + NumbersAt(m[n - 1].files, |m[n - 1].files|, l)
  }

  /** The files of level l after the first n edits. */
  ghost function FilesAfter(m: seq<Edit>, n: nat, l: nat): set<FileMeta>
    requires n <= |m|
  {
    if n == 0 then {} else StepFiles(FilesAfter(m, n - 1, l), m[n - 1], l)
  }

  ghost predicate GoodManifest(m: seq<Edit>) {
    && (forall i :: 0 <= i < |m| ==> GoodEdit(m[i]))
    && forall i, l :: 0 <= i < |m| && 0 <= l < NUM_LEVELS ==> FreshAt(Known(m, i, l), m[i].files, |m[i].files|, l)
  }

  lemma {:induction false} FilesKnown(m: seq<Edit>, n: nat, l: nat)
    requires n <= |m|
    ensures NumberedIn(FilesAfter(m, n, l), Known(m, n, l))
  {
    if n > 0 {
      FilesKnown(m, n - 1, l);
      FilesNumbered(m[n - 1].files, |m[n - 1].files|, l);
    }
  }

  lemma {:induction false} KnownSame(m: seq<Edit>, more: seq<Edit>, n: nat, l: nat)
    requires n <= |m| && m <= more
    ensures Known(more, n, l) == Known(m, n, l) && FilesAfter(more, n, l) == FilesAfter(m, n, l)
  {
    if n > 0 {
      KnownSame(m, more, n - 1, l);
    }
  }

  /** The last value each number was given. */
  datatype Marks = Marks(log: Option<nat>, prev: Option<nat>, next: Option<nat>, last: Option<nat>)

  function Mark(k: Marks, e: Edit): Marks {
    Marks(if e.logNumber.Some? then e.logNumber else k.log,
          if e.prevLogNumber.Some? then e.prevLogNumber else k.prev,
          if e.nextFile.Some? then e.nextFile else k.next,
          if e.lastSequence.Some? then e.lastSequence else k.last)
  }

  function MarksAfter(m: seq<Edit>, n: nat): Marks
    requires n <= |m|
  {
    if n == 0 then Marks(None, None, None, None) else Mark(MarksAfter(m, n - 1), m[n - 1])
  }

  /** r is the last value that any of the first n edits sets. */
  ghost predicate LastSet(m: seq<Edit>, n: nat, get: Edit -> Option<nat>, r: Option<nat>)
    requires n <= |m|
  {
    if r.None? then forall i :: 0 <= i < n ==> get(m[i]).None?
    else exists i :: 0 <= i < n && get(m[i]) == r && forall j :: i < j < n ==> get(m[j]).None?
  }

  lemma LastSetMore(m: seq<Edit>, n: nat, get: Edit -> Option<nat>, r: Option<nat>)
    requires 0 < n <= |m| && LastSet(m, n - 1, get, r)
    ensures LastSet(m, n, get, if get(m[n - 1]).Some? then get(m[n - 1]) else r)
  {
    if get(m[n - 1]).None? && r.Some? {
      var i :| 0 <= i < n - 1 && get(m[i]) == r && forall j :: i < j < n - 1 ==> get(m[j]).None?;
      assert get(m[i]) == r;
    }
  }

  /** The numbers after n edits are the last that were set. */
  lemma {:induction false} MarksAreLast(m: seq<Edit>, n: nat)
    requires n <= |m|
    ensures var k := MarksAfter(m, n);
      && LastSet(m, n, (e: Edit) => e.logNumber, k.log) && LastSet(m, n, (e: Edit) => e.prevLogNumber, k.prev)
      && LastSet(m, n, (e: Edit) => e.nextFile, k.next) && LastSet(m, n, (e: Edit) => e.lastSequence, k.last)
  {
    if n > 0 {
      MarksAreLast(m, n - 1);
      var k := MarksAfter(m, n - 1);
      LastSetMore(m, n, (e: Edit) => e.logNumber, k.log);
      LastSetMore(m, n, (e: Edit) => e.prevLogNumber, k.prev);
      LastSetMore(m, n, (e: Edit) => e.nextFile, k.next);
      LastSetMore(m, n, (e: Edit) => e.lastSequence, k.last);
    }
  }

  // ---- Snapshots ----

  lemma {:induction false} FilesAtIff(files: seq<(nat, FileMeta)>, n: nat, l: nat, f: FileMeta)
    requires n <= |files|
    ensures f in FilesAt(files, n, l) <==> (l, f) in files[..n]
  {
    if n > 0 {
      FilesAtIff(files, n - 1, l, f);
      assert files[..n] == files[..n - 1] + [files[n - 1]];
    }
  }

  lemma {:induction false} NumbersAtFrom(files: seq<(nat, FileMeta)>, n: nat, l: nat, x: nat) returns (i: nat)
    requires n <= |files| && x in NumbersAt(files, n, l)
    ensures i < n && files[i].0 == l && files[i].1.number == x
  {
    if files[n - 1].0 == l && files[n - 1].1.number == x {
      i := n - 1;
    } else {
      i := NumbersAtFrom(files, n - 1, l, x);
    }
  }

  lemma FreshFewer(known: set<nat>, fewer: set<nat>, files: seq<(nat, FileMeta)>, n: nat, l: nat)
    requires n <= |files| && FreshAt(known, files, n, l) && fewer <= known
    ensures FreshAt(fewer, files, n, l)
  {
  }

  ghost predicate UniqueNumbers(S: set<FileMeta>) {
    forall f, g :: f in S && g in S && f.number == g.number ==> f == g
  }

  lemma {:induction false} NewUnique(known: set<nat>, files: seq<(nat, FileMeta)>, n: nat, l: nat)
    requires n <= |files| && FreshAt(known, files, n, l)
    ensures UniqueNumbers(FilesAt(files, n, l))
  {
    if n > 0 {
      NewUnique(known, files, n - 1, l);
      FilesNumbered(files, n - 1, l);
    }
  }

  /** No two files of a level have the same number. */
  lemma {:induction false} LevelUnique(m: seq<Edit>, n: nat, l: nat)
    requires GoodManifest(m) && n <= |m| && l < NUM_LEVELS
    ensures UniqueNumbers(FilesAfter(m, n, l))
  {
    if n > 0 {
      var e := m[n - 1];
      LevelUnique(m, n - 1, l);
      FilesKnown(m, n - 1, l);
      NewUnique(Known(m, n - 1, l), e.files, |e.files|, l);
      FilesNumbered(e.files, |e.files|, l);
      NumbersFresh(Known(m, n - 1, l), e.files, |e.files|, l);
    }
  }

  /** The files of the first k levels, each once, with their levels. */
  ghost predicate Lists(files: seq<(nat, FileMeta)>, v: seq<Files>, k: nat)
    requires k <= |v|
  {
    && (forall i :: 0 <= i < |files| ==> files[i].0 < k && files[i].1 in v[files[i].0])
    && (forall l, f :: 0 <= l < k && f in v[l] ==> (l, f) in files)
    && forall i, j :: 0 <= i < j < |files| && files[i].0 == files[j].0 ==> files[i].1.number != files[j].1.number
  }

  function Tagged(fs: Files, l: nat): (r: seq<(nat, FileMeta)>)
    ensures |r| == |fs| && forall i :: 0 <= i < |r| ==> r[i] == (l, fs[i])
  {
    seq(|fs|, i requires 0 <= i < |fs| => (l, fs[i]))
  }

  ghost predicate NumbersApart(fs: Files) {
    forall i, j :: 0 <= i < j < |fs| ==> fs[i].number != fs[j].number
  }

  lemma ListsMore(files: seq<(nat, FileMeta)>, v: seq<Files>, k: nat)
    requires k < |v| && Lists(files, v, k) && NumbersApart(v[k])
    ensures Lists(files + Tagged(v[k], k), v, k + 1)
  {
    var more := files + Tagged(v[k], k);
    forall l, f | 0 <= l < k + 1 && f in v[l] ensures (l, f) in more {
      if l == k {
        var i :| 0 <= i < |v[k]| && v[k][i] == f;
        assert more[|files| + i] == (l, f);
      } else {
        assert (l, f) in files;
      }
    }
  }

  /** Such a list, as an edit, stands for the files it lists. */
  lemma ListsLevel(files: seq<(nat, FileMeta)>, v: seq<Files>, l: nat)
    requires |v| == NUM_LEVELS && Lists(files, v, NUM_LEVELS) && l < NUM_LEVELS
    ensures FilesAt(files, |files|, l) == Elems(v[l]) && FreshAt({}, files, |files|, l)
  {
    assert files[..|files|] == files;
    forall f ensures f in FilesAt(files, |files|, l) <==> f in Elems(v[l]) {
      FilesAtIff(files, |files|, l, f);
    }
    forall i | 0 <= i < |files| && files[i].0 == l ensures files[i].1.number !in NumbersAt(files, i, l) {
      if files[i].1.number in NumbersAt(files, i, l) {
        var j := NumbersAtFrom(files, i, l, files[i].1.number);
      }
    }
  }

  lemma ListsNumbers(files: seq<(nat, FileMeta)>, v: seq<Files>, l: nat, known: set<nat>)
    requires |v| == NUM_LEVELS && Lists(files, v, NUM_LEVELS) && l < NUM_LEVELS && NumberedIn(Elems(v[l]), known)
    ensures NumbersAt(files, |files|, l) <= known
  {
    forall x | x in NumbersAt(files, |files|, l) ensures x in known {
      var i := NumbersAtFrom(files, |files|, l, x);
      assert files[i].1 in Elems(v[l]);
    }
  }
}
