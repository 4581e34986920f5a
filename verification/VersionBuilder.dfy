/** VersionSet::Builder: many edits folded into one set of file lists. */
module VersionBuilder {
  import opened Keys
  import opened VersionEdits

  type Files = seq<FileMeta>

  /** BySmallestKey: smallest key first, ties by number. */
  predicate FLess(less: KeyLess, a: FileMeta, b: FileMeta) {
    less(a.smallest, b.smallest) || (a.smallest == b.smallest && a.number < b.number)
  }

  lemma FLessTrans(less: KeyLess, a: FileMeta, b: FileMeta, c: FileMeta)
    requires IsOrder(less) && FLess(less, a, b) && FLess(less, b, c)
    ensures FLess(less, a, c)
  {
  }

  lemma FLessTotal(less: KeyLess, a: FileMeta, b: FileMeta)
    requires IsOrder(less)
    ensures FLess(less, a, b) || FLess(less, b, a) || (a.smallest == b.smallest && a.number == b.number)
    ensures !(FLess(less, a, b) && FLess(less, b, a))
  {
  }

  ghost predicate Sorted(less: KeyLess, fs: Files) {
    forall i, j :: 0 <= i < j < |fs| ==> FLess(less, fs[i], fs[j])
  }

  ghost function Elems(fs: seq<FileMeta>): set<FileMeta> {
    set f | f in fs
  }

  lemma SameLast(less: KeyLess, a: Files, b: Files)
    requires IsOrder(less) && Sorted(less, a) && Sorted(less, b) && Elems(a) == Elems(b) && a != [] && b != []
    ensures a[|a| - 1] == b[|b| - 1]
  {
    var x, y := a[|a| - 1], b[|b| - 1];
    assert x in Elems(b) && y in Elems(a);
    var i :| 0 <= i < |b| && b[i] == x;
    var j :| 0 <= j < |a| && a[j] == y;
    FLessTotal(less, x, y);
  }

  lemma WithoutLast(less: KeyLess, a: Files)
    requires IsOrder(less) && Sorted(less, a) && a != []
    ensures Sorted(less, a[..|a| - 1]) && Elems(a[..|a| - 1]) == Elems(a) - {a[|a| - 1]}
  {
    var x, front := a[|a| - 1], a[..|a| - 1];
    forall f | f in front ensures f != x {
      var i :| 0 <= i < |front| && front[i] == f;
      assert FLess(less, a[i], a[|a| - 1]);
      FLessTotal(less, x, x);
    }
    forall f | f in a && f != x ensures f in front {
      var i :| 0 <= i < |a| && a[i] == f;
      assert front[i] == f;
    }
  }

  /** A sorted list is determined by its elements. */
  lemma {:induction false} SortedUnique(less: KeyLess, a: Files, b: Files)
    requires IsOrder(less) && Sorted(less, a) && Sorted(less, b) && Elems(a) == Elems(b)
    ensures a == b
    decreases |a|
  {
    assert (a != [] ==> a[0] in Elems(a)) && (b != [] ==> b[0] in Elems(b));
    if a != [] {
      SameLast(less, a, b);
      WithoutLast(less, a);
      WithoutLast(less, b);
      SortedUnique(less, a[..|a| - 1], b[..|b| - 1]);
      assert a == a[..|a| - 1] + [a[|a| - 1]] && b == b[..|b| - 1] + [b[|b| - 1]];
    }
  }

  // ---- One level ----

  datatype LevelState = LevelState(deleted: set<nat>, added: Files)

  const NO_CHANGE := LevelState({}, [])

  /** A file with the same smallest key and number is there. */
  predicate HasEqual(fs: seq<FileMeta>, f: FileMeta) {
    exists i :: 0 <= i < |fs| && fs[i].smallest == f.smallest && fs[i].number == f.number
  }

  lemma InsertedAt(less: KeyLess, fs: Files, f: FileMeta, i: nat)
    requires IsOrder(less) && Sorted(less, fs) && i <= |fs|
    requires forall k :: 0 <= k < i ==> FLess(less, fs[k], f)
    requires forall k :: i <= k < |fs| ==> FLess(less, f, fs[k])
    ensures Sorted(less, fs[..i] + [f] + fs[i..])
    ensures Elems(fs[..i] + [f] + fs[i..]) == Elems(fs) + {f} && !HasEqual(fs, f)
  {
    var r := fs[..i] + [f] + fs[i..];
    assert Elems(r) == Elems(fs) + {f} by {
      assert forall g :: g in fs ==> g in fs[..i] || g in fs[i..];
    }
    forall k | 0 <= k < |fs| ensures !(fs[k].smallest == f.smallest && fs[k].number == f.number) {
      FLessTotal(less, f, f);
    }
  }

  lemma RestAbove(less: KeyLess, fs: Files, f: FileMeta, i: nat)
    requires IsOrder(less) && Sorted(less, fs) && i <= |fs|
    requires i < |fs| ==> !FLess(less, fs[i], f) && !(fs[i].smallest == f.smallest && fs[i].number == f.number)
    ensures forall k :: i <= k < |fs| ==> FLess(less, f, fs[k])
  {
    if i < |fs| {
      FLessTotal(less, fs[i], f);
      forall k | i < k < |fs| ensures FLess(less, f, fs[k]) {
        FLessTrans(less, f, fs[i], fs[k]);
      }
    }
  }

  /** std::set insertion: where f belongs, unless an equal file is there. */
  method Insert(less: KeyLess, fs: Files, f: FileMeta) returns (r: Files)
    requires IsOrder(less) && Sorted(less, fs)
    ensures Sorted(less, r) && if HasEqual(fs, f) then r == fs else Elems(r) == Elems(fs) + {f}
  {
    var i := 0;
    while i < |fs| && FLess(less, fs[i], f)
      invariant 0 <= i <= |fs| && forall k :: 0 <= k < i ==> FLess(less, fs[k], f)
    {
      i := i + 1;
    }
    if i < |fs| && fs[i].smallest == f.smallest && fs[i].number == f.number {
      return fs;
    }
    RestAbove(less, fs, f, i);
    InsertedAt(less, fs, f, i);
    r := fs[..i] + [f] + fs[i..];
  }

  /** The files of a level after its changes. */
  ghost function Live(base: seq<FileMeta>, st: LevelState): set<FileMeta> {
    set f | f in Elems(base) + Elems(st.added) && f.number !in st.deleted
  }

  ghost predicate Distinct(base: seq<FileMeta>, added: seq<FileMeta>) {
    forall f, g :: f in base && g in added ==> !(f.smallest == g.smallest && f.number == g.number)
  }

  /** f comes after everything in fs. */
  ghost predicate Above(less: KeyLess, fs: Files, f: FileMeta)
  {
    forall g :: g in fs ==> FLess(less, g, f)
  }

  method MaybeAddFile(less: KeyLess, files: Files, deleted: set<nat>, f: FileMeta) returns (r: Files)
    requires Sorted(less, files) && Above(less, files, f)
    ensures Sorted(less, r) && Elems(r) == Elems(files) + (if f.number in deleted then {} else {f})
  {
    if f.number in deleted {
      return files;
    }
    forall i | 0 <= i < |files| ensures FLess(less, files[i], f) {
      assert files[i] in files;
    }
    r := files + [f];
  }

  /** What has been saved when a base files and b added files have been looked at. */
  ghost function Saved(base: seq<FileMeta>, st: LevelState, a: nat, b: nat): set<FileMeta>
    requires a <= |base| && b <= |st.added|
  {
    set f | f in Elems(base[..a]) + Elems(st.added[..b]) && f.number !in st.deleted
  }

  lemma SavedMore(base: seq<FileMeta>, st: LevelState, a: nat, b: nat)
    requires a <= |base| && b <= |st.added|
    ensures a < |base| ==>
      Saved(base, st, a + 1, b) == Saved(base, st, a, b) + (if base[a].number in st.deleted then {} else {base[a]})
    ensures b < |st.added| ==>
      Saved(base, st, a, b + 1) ==
        Saved(base, st, a, b) + (if st.added[b].number in st.deleted then {} else {st.added[b]})
  {
    if a < |base| {
      assert base[..a + 1] == base[..a] + [base[a]];
    }
    if b < |st.added| {
      assert st.added[..b + 1] == st.added[..b] + [st.added[b]];
    }
  }

  ghost predicate Between(less: KeyLess, base: Files, added: Files, a: nat, b: nat)
    requires a <= |base| && b <= |added|
  {
    && (forall i, j :: 0 <= i < a && b <= j < |added| ==> FLess(less, base[i], added[j]))
    && forall i, j :: a <= i < |base| && 0 <= j < b ==> FLess(less, added[j], base[i])
  }

  /** Everything saved lies below what is still to come. */
  lemma SavedBelow(less: KeyLess, base: Files, st: LevelState, a: nat, b: nat, f: FileMeta)
    requires Sorted(less, base) && Sorted(less, st.added) && a <= |base|
    requires b <= |st.added| && Between(less, base, st.added, a, b)
    requires (a < |base| && f == base[a]) || (b < |st.added| && f == st.added[b])
    ensures forall g :: g in Saved(base, st, a, b) ==> FLess(less, g, f)
  {
    forall g | g in Saved(base, st, a, b) ensures FLess(less, g, f) {
      if g in base[..a] {
        var i :| 0 <= i < a && base[i] == g;
      } else {
        var j :| 0 <= j < b && st.added[j] == g;
      }
    }
  }

  /** SaveTo for one level: base and added files merged, deleted ones left out. */
  method SaveLevel(less: KeyLess, base: Files, st: LevelState) returns (files: Files)
    requires IsOrder(less) && Sorted(less, base) && Sorted(less, st.added) && Distinct(base, st.added)
    ensures Sorted(less, files) && Elems(files) == Live(base, st)
  {
    files := [];
    var a, b := 0, 0;
    while b < |st.added|
      invariant 0 <= a <= |base| && 0 <= b <= |st.added| && Between(less, base, st.added, a, b)
      invariant Sorted(less, files) && Elems(files) == Saved(base, st, a, b)
    {
      var f := st.added[b];
      while a < |base| && !FLess(less, f, base[a])
        invariant 0 <= a <= |base| && Between(less, base, st.added, a, b)
        invariant Sorted(less, files) && Elems(files) == Saved(base, st, a, b)
      {
        NextBase(less, base, st.added, a, b);
        SavedBelow(less, base, st, a, b, base[a]);
        SavedMore(base, st, a, b);
        AboveElems(less, files, base[a], Saved(base, st, a, b));
        files := MaybeAddFile(less, files, st.deleted, base[a]);
        a := a + 1;
      }
      NextAdded(less, base, st.added, a, b);
      SavedBelow(less, base, st, a, b, f);
      SavedMore(base, st, a, b);
      AboveElems(less, files, f, Saved(base, st, a, b));
      files := MaybeAddFile(less, files, st.deleted, f);
      b := b + 1;
    }
    while a < |base|
      invariant 0 <= a <= |base| && b == |st.added| && Between(less, base, st.added, a, b)
      invariant Sorted(less, files) && Elems(files) == Saved(base, st, a, b)
    {
      SavedBelow(less, base, st, a, b, base[a]);
      SavedMore(base, st, a, b);
      AboveElems(less, files, base[a], Saved(base, st, a, b));
      files := MaybeAddFile(less, files, st.deleted, base[a]);
      a := a + 1;
    }
    assert base[..a] == base && st.added[..b] == st.added;
  }

  lemma AboveElems(less: KeyLess, files: Files, f: FileMeta, S: set<FileMeta>)
    requires Elems(files) == S && forall g :: g in S ==> FLess(less, g, f)
    ensures Above(less, files, f)
  {
    forall g | g in files ensures FLess(less, g, f) {
      assert g in Elems(files);
    }
  }

  lemma NextBase(less: KeyLess, base: Files, added: Files, a: nat, b: nat)
    requires IsOrder(less) && Sorted(less, base) && Sorted(less, added)
    requires Distinct(base, added) && a < |base| && b < |added|
    requires Between(less, base, added, a, b) && !FLess(less, added[b], base[a])
    ensures Between(less, base, added, a + 1, b)
  {
    FLessTotal(less, base[a], added[b]);
    assert base[a] in base && added[b] in added;
    forall j | b < j < |added| ensures FLess(less, base[a], added[j]) {
      FLessTrans(less, base[a], added[b], added[j]);
    }
  }

  lemma NextAdded(less: KeyLess, base: Files, added: Files, a: nat, b: nat)
    requires IsOrder(less) && Sorted(less, base) && Sorted(less, added) && a <= |base| && b < |added|
    requires Between(less, base, added, a, b) && (a < |base| ==> FLess(less, added[b], base[a]))
    ensures Between(less, base, added, a, b + 1)
  {
    forall i | a < i < |base| ensures FLess(less, added[b], base[i]) {
      FLessTrans(less, added[b], base[a], base[i]);
    }
  }
}
