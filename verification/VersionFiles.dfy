/** Table files, the sorted levels of a version, and the range queries of
    version_set.cc that every compaction and lookup decision rests on. */
module VersionFiles {
  import opened Wrappers
  import opened DbFormat

  /** A table file: its metadata and the entries it serves in internal-key order.
      smallest and largest are the first and last internal keys written. */
  datatype File = File(number: nat, size: nat, entries: seq<Entry>)

  type Level = seq<File>

  ghost predicate ValidFile(f: File) {
    && f.entries != []
    && SortedEntries(f.entries)
    && forall e :: e in f.entries ==> e.sn <= MAX_SEQUENCE
  }

  ghost predicate ValidFiles(files: Level) {
    forall i :: 0 <= i < |files| ==> ValidFile(files[i])
  }

  function Smallest(f: File): InternalKey
    requires f.entries != []
  {
    IKey(f.entries[0])
  }

  function Largest(f: File): InternalKey
    requires f.entries != []
  {
    IKey(f.entries[|f.entries| - 1])
  }

  /** Files of a level >= 1: sorted, and every key of a file before every key of
      the next. */
  ghost predicate SortedLevel(files: Level) {
    && ValidFiles(files)
    && forall i, j :: 0 <= i < j < |files| ==> Less(Largest(files[i]), Smallest(files[j]))
  }

  /** x lies in the user-key range of f. */
  predicate Covers(f: File, x: UserKey)
    requires f.entries != []
  {
    Smallest(f).key <= x <= Largest(f).key
  }

  /** f meets the user-key range [lo, hi]; None is unbounded. */
  predicate Overlaps(f: File, lo: Option<UserKey>, hi: Option<UserKey>)
    requires f.entries != []
  {
    && !(lo.Some? && Largest(f).key < lo.value)
    && !(hi.Some? && Smallest(f).key > hi.value)
  }

  predicate InRange(x: UserKey, lo: Option<UserKey>, hi: Option<UserKey>) {
    (lo.Some? ==> lo.value <= x) && (hi.Some? ==> x <= hi.value)
  }

  /** The user keys of a valid file lie between its smallest and largest. */
  lemma EntryInRange(f: File, e: Entry)
    requires ValidFile(f) && e in f.entries
    ensures Covers(f, e.key)
    ensures !Less(IKey(e), Smallest(f)) && !Less(Largest(f), IKey(e))
  {
    var i :| 0 <= i < |f.entries| && f.entries[i] == e;
    assert i > 0 ==> LessE(f.entries[0], f.entries[i]);
    assert i < |f.entries| - 1 ==> LessE(f.entries[i], f.entries[|f.entries| - 1]);
  }

  lemma SmallestNotAfterLargest(f: File)
    requires ValidFile(f)
    ensures Smallest(f).key <= Largest(f).key && !Less(Largest(f), Smallest(f))
  {
    EntryInRange(f, f.entries[0]);
  }

  /** In a sorted level both ends of the files increase. */
  lemma SortedLevelEnds(files: Level, i: nat, j: nat)
    requires SortedLevel(files) && i < j < |files|
    ensures Less(Largest(files[i]), Largest(files[j]))
    ensures Less(Smallest(files[i]), Smallest(files[j]))
    ensures Largest(files[i]).key <= Smallest(files[j]).key
  {
    SmallestNotAfterLargest(files[i]);
    SmallestNotAfterLargest(files[j]);
  }

  ghost predicate NonEmpty(files: Level) {
    forall i :: 0 <= i < |files| ==> files[i].entries != []
  }

  /** Where the binary search between two positions ends, sorted files or not. */
  ghost function SearchFrom(files: Level, key: InternalKey, left: nat, right: nat): nat
    requires NonEmpty(files) && left <= right <= |files|
    decreases right - left
  {
    if left == right then right
    else
      var mid := (left + right) / 2;
      if Less(Largest(files[mid]), key) then SearchFrom(files, key, mid + 1, right)
      else SearchFrom(files, key, left, mid)
  }

  /** Binary search for the first file whose largest key is at or after key. */
  method FindFile(files: Level, key: InternalKey) returns (right: nat)
    requires NonEmpty(files)
    ensures right == SearchFrom(files, key, 0, |files|) <= |files|
  {
    var left := 0;
    right := |files|;
    while left < right
      invariant left <= right <= |files| && SearchFrom(files, key, left, right) == SearchFrom(files, key, 0, |files|)
    {
      var mid := (left + right) / 2;
      if Less(Largest(files[mid]), key) {
        left := mid + 1;
      } else {
        right := mid;
      }
    }
  }

  /** right is the first file whose largest key is at or after key. */
  ghost predicate FirstAtOrAfter(files: Level, key: InternalKey, right: nat)
    requires NonEmpty(files)
  {
    && right <= |files| && (forall i :: 0 <= i < right ==> Less(Largest(files[i]), key))
    && forall i :: right <= i < |files| ==> !Less(Largest(files[i]), key)
  }

  /** In a sorted level the binary search finds it. */
  lemma {:induction false} SearchFinds(files: Level, key: InternalKey, left: nat, right: nat)
    requires SortedLevel(files) && left <= right <= |files|
    requires forall i :: 0 <= i < left ==> Less(Largest(files[i]), key)
    requires forall i :: right <= i < |files| ==> !Less(Largest(files[i]), key)
    ensures FirstAtOrAfter(files, key, SearchFrom(files, key, left, right))
    decreases right - left
  {
    if left < right {
      var mid := (left + right) / 2;
      if Less(Largest(files[mid]), key) {
        forall i | 0 <= i < mid ensures Less(Largest(files[i]), key) {
          SortedLevelEnds(files, i, mid);
        }
        SearchFinds(files, key, mid + 1, right);
      } else {
        forall i | mid < i < |files| ensures !Less(Largest(files[i]), key) {
          SortedLevelEnds(files, mid, i);
        }
        SearchFinds(files, key, left, mid);
      }
    }
  }

  /** Whether some file of the level meets the range: a linear scan for level 0,
      one binary search for the sorted levels. */
  method SomeFileOverlapsRange(disjointSorted: bool, files: Level, lo: Option<UserKey>, hi: Option<UserKey>)
    returns (overlap: bool)
    requires ValidFiles(files)
    requires disjointSorted ==> SortedLevel(files)
    ensures overlap <==> exists i :: 0 <= i < |files| && Overlaps(files[i], lo, hi)
  {
    if !disjointSorted {
      for i := 0 to |files|
        invariant forall j :: 0 <= j < i ==> !Overlaps(files[j], lo, hi)
      {
        if (lo.Some? && lo.value > Largest(files[i]).key) || (hi.Some? && hi.value < Smallest(files[i]).key) {
        } else {
          assert Overlaps(files[i], lo, hi);
          return true;
        }
      }
      return false;
    }
    var index := 0;
    if lo.Some? {
      index := FindFile(files, InternalKey(lo.value, MAX_SEQUENCE, Value));
      SearchFinds(files, InternalKey(lo.value, MAX_SEQUENCE, Value), 0, |files|);
      forall i | 0 <= i < index ensures !Overlaps(files[i], lo, hi) {
        assert Less(Largest(files[i]), InternalKey(lo.value, MAX_SEQUENCE, Value));
        assert files[i].entries[|files[i].entries| - 1] in files[i].entries;
      }
    }
    if index >= |files| {
      return false;
    }
    if hi.Some? && hi.value < Smallest(files[index]).key {
      forall i | index < i < |files| ensures !Overlaps(files[i], lo, hi) {
        SortedLevelEnds(files, index, i);
      }
      return false;
    }
    assert Overlaps(files[index], lo, hi);
    return true;
  }

  // ---- GetOverlappingInputs ----

  /** The files of the list meeting the range, in list order. */
  function Selected(files: Level, lo: Option<UserKey>, hi: Option<UserKey>): (r: Level)
    requires forall i :: 0 <= i < |files| ==> files[i].entries != []
    ensures forall f :: f in r <==> f in files && Overlaps(f, lo, hi)
  {
    if files == [] then []
    else
      var init := Selected(files[..|files| - 1], lo, hi);
      var f := files[|files| - 1];
      if Overlaps(f, lo, hi) then init + [f] else init
  }

  /** C holds every file meeting the request and every file that meets one of its
      members. */
  ghost predicate OverlapClosed(C: set<File>, files: Level, lo: Option<UserKey>, hi: Option<UserKey>) {
    && ValidFiles(files)
    && (forall f :: f in C ==> f in files)
    && (forall f :: f in files && Overlaps(f, lo, hi) ==> f in C)
    && (forall f, g :: f in files && g in C && Overlaps(f, Some(Smallest(g).key), Some(Largest(g).key)) ==> f in C)
  }

  /** Every point of [b, e] is in the request or under a file of C. */
  ghost predicate Filled(C: set<File>, lo: Option<UserKey>, hi: Option<UserKey>, b: Option<UserKey>,
                         e: Option<UserKey>) {
    forall x :: InRange(x, b, e) ==> InRange(x, lo, hi) || exists g: File :: g in C && g.entries != [] && Covers(g, x)
  }

  /** What one level-0 answer means: the files of the list that meet a range
      [b, e] around the request, which is the least such set closed under overlap. */
  ghost predicate LeastClosure(inputs: Level, files: Level, lo: Option<UserKey>, hi: Option<UserKey>,
                               b: Option<UserKey>, e: Option<UserKey>)
    requires ValidFiles(files)
  {
    && inputs == Selected(files, b, e)
    && (lo.None? <==> b.None?) && (hi.None? <==> e.None?)
    && (lo.Some? ==> b.value <= lo.value) && (hi.Some? ==> hi.value <= e.value)
    && (forall f :: f in inputs ==> (b.Some? ==> b.value <= Smallest(f).key) && (e.Some? ==> Largest(f).key <= e.value))
    && (forall C :: OverlapClosed(C, files, lo, hi) ==> Filled(C, lo, hi, b, e) && forall f :: f in inputs ==> f in C)
  }

  lemma OverlapMember(C: set<File>, files: Level, lo: Option<UserKey>, hi: Option<UserKey>,
                      b: Option<UserKey>, e: Option<UserKey>, f: File)
    requires OverlapClosed(C, files, lo, hi) && f in files && Overlaps(f, b, e)
    requires Filled(C, lo, hi, b, e)
    requires (b == lo && e == hi) || (b.Some? && e.Some? ==> b.value <= e.value)
    ensures f in C
  {
    if !(b == lo && e == hi) {
      // some point of f lies in [b, e]
      SmallestNotAfterLargest(f);
      var x := if b.Some? && Smallest(f).key < b.value then b.value else Smallest(f).key;
      assert InRange(x, b, e) && Covers(f, x);
      if !InRange(x, lo, hi) {
        var g :| g in C && g.entries != [] && Covers(g, x);
        assert Overlaps(f, Some(Smallest(g).key), Some(Largest(g).key));
      }
    }
  }

  ghost function StartsBefore(files: Level, b: Option<UserKey>): set<File>
    requires forall i :: 0 <= i < |files| ==> files[i].entries != []
  {
    set f | f in files && b.Some? && Smallest(f).key < b.value
  }

  ghost function EndsAfter(files: Level, e: Option<UserKey>): set<File>
    requires forall i :: 0 <= i < |files| ==> files[i].entries != []
  {
    set f | f in files && e.Some? && Largest(f).key > e.value
  }

  /** The restarting search of level 0 and the plain filter of the other levels. */
  method GetOverlappingInputs(level: nat, files: Level, begin: Option<UserKey>, end: Option<UserKey>)
    returns (inputs: Level, ghost b: Option<UserKey>, ghost e: Option<UserKey>)
    requires ValidFiles(files)
    ensures level > 0 ==> inputs == Selected(files, begin, end)
    ensures level == 0 ==> LeastClosure(inputs, files, begin, end, b, e)
  {
    inputs := [];
    var userBegin, userEnd := begin, end;
    var i := 0;
    while i < |files|
      invariant i <= |files|
      invariant inputs == Selected(files[..i], userBegin, userEnd)
      invariant level > 0 ==> userBegin == begin && userEnd == end
      invariant || (userBegin == begin && userEnd == end)
                || (userBegin.Some? && userEnd.Some? ==> userBegin.value <= userEnd.value)
      invariant (begin.None? <==> userBegin.None?) && (end.None? <==> userEnd.None?)
      invariant (begin.Some? ==> userBegin.value <= begin.value) && (end.Some? ==> end.value <= userEnd.value)
      invariant level == 0 ==> forall f :: f in inputs ==>
        (userBegin.Some? ==> userBegin.value <= Smallest(f).key) && (userEnd.Some? ==> Largest(f).key <= userEnd.value)
      invariant forall C :: OverlapClosed(C, files, begin, end) ==> Filled(C, begin, end, userBegin, userEnd)
      decreases |StartsBefore(files, userBegin)| + |EndsAfter(files, userEnd)|, |files| - i
    {
      var f := files[i];
      i := i + 1;
      assert files[..i][..i - 1] == files[..i - 1];
      var fileStart, fileLimit := Smallest(f).key, Largest(f).key;
      if userBegin.Some? && fileLimit < userBegin.value {
      } else if userEnd.Some? && fileStart > userEnd.value {
      } else {
        inputs := inputs + [f];
        if level == 0 {
          SmallestNotAfterLargest(f);
          forall C | OverlapClosed(C, files, begin, end) ensures f in C {
            OverlapMember(C, files, begin, end, userBegin, userEnd, f);
          }
          if userBegin.Some? && fileStart < userBegin.value {
            WidenBegin(files, f, begin, end, userBegin, userEnd);
            userBegin := Some(fileStart);
            inputs := [];
            i := 0;
          } else if userEnd.Some? && fileLimit > userEnd.value {
            WidenEnd(files, f, begin, end, userBegin, userEnd);
            userEnd := Some(fileLimit);
            inputs := [];
            i := 0;
          }
        }
      }
    }
    assert files[..i] == files;
    b, e := userBegin, userEnd;
    if level == 0 {
      forall C, f | OverlapClosed(C, files, begin, end) && f in inputs ensures f in C {
        OverlapMember(C, files, begin, end, b, e, f);
      }
    }
  }

  lemma WidenBegin(files: Level, f: File, lo: Option<UserKey>, hi: Option<UserKey>, b: Option<UserKey>,
                   e: Option<UserKey>)
    requires ValidFiles(files) && f in files
    requires b.Some? && Smallest(f).key < b.value && Overlaps(f, b, e)
    requires forall C :: OverlapClosed(C, files, lo, hi) ==> Filled(C, lo, hi, b, e) && f in C
    ensures |StartsBefore(files, Some(Smallest(f).key))| < |StartsBefore(files, b)|
    ensures forall C :: OverlapClosed(C, files, lo, hi) ==> Filled(C, lo, hi, Some(Smallest(f).key), e)
  {
    var s, t := StartsBefore(files, Some(Smallest(f).key)), StartsBefore(files, b);
    assert s <= t - {f};
    Shrinks(s, t, f);
    forall C | OverlapClosed(C, files, lo, hi) ensures Filled(C, lo, hi, Some(Smallest(f).key), e) {
      forall x | InRange(x, Some(Smallest(f).key), e)
        ensures InRange(x, lo, hi) || exists g: File :: g in C && g.entries != [] && Covers(g, x)
      {
        if x < b.value { assert f in C && Covers(f, x); } else { assert InRange(x, b, e); }
      }
    }
  }

  lemma WidenEnd(files: Level, f: File, lo: Option<UserKey>, hi: Option<UserKey>, b: Option<UserKey>,
                 e: Option<UserKey>)
    requires ValidFiles(files) && f in files
    requires e.Some? && Largest(f).key > e.value && Overlaps(f, b, e)
    requires forall C :: OverlapClosed(C, files, lo, hi) ==> Filled(C, lo, hi, b, e) && f in C
    ensures |EndsAfter(files, Some(Largest(f).key))| < |EndsAfter(files, e)|
    ensures forall C :: OverlapClosed(C, files, lo, hi) ==> Filled(C, lo, hi, b, Some(Largest(f).key))
  {
    var s, t := EndsAfter(files, Some(Largest(f).key)), EndsAfter(files, e);
    assert s <= t - {f};
    Shrinks(s, t, f);
    forall C | OverlapClosed(C, files, lo, hi) ensures Filled(C, lo, hi, b, Some(Largest(f).key)) {
      forall x | InRange(x, b, Some(Largest(f).key))
        ensures InRange(x, lo, hi) || exists g: File :: g in C && g.entries != [] && Covers(g, x)
      {
        if x > e.value { assert f in C && Covers(f, x); } else { assert InRange(x, b, e); }
      }
    }
  }

  lemma Shrinks<T>(s: set<T>, t: set<T>, x: T)
    requires x in t && s <= t - {x}
    ensures |s| < |t|
  {
    var rest := t - {x};
    assert |rest| + 1 == |t|;
    SubsetSize(s, rest);
  }

  lemma SubsetSize<T>(s: set<T>, t: set<T>)
    requires s <= t
    ensures |s| <= |t|
  {
    assert t == s + (t - s);
    assert |t| == |s| + |t - s|;
  }
}
