/** Table::InternalGet: index seek, filter, block seek; and why the answer is that of a linear
    search through the whole table. */
module TableLookup {
  import opened Coding
  import opened Keys
  import opened BlockIter
  import opened TableBuilder
  import Comparator

  datatype Answer = Found(value: Bytes) | Deleted | Absent | Corrupt

  /** SaveValue on the entry a seek landed on; only types 0 and 1 exist. */
  function Save(kv: KV, k: IKeyBytes): Answer
    requires IsInternal(kv.key)
  {
    var kind := TagPart(kv.key) % 256;
    if kind > 1 then Corrupt
    else if UserPart(kv.key) != UserPart(k) then Absent
    else if kind == 1 then Found(kv.value)
    else Deleted
  }

  /** The sequence number and the type of an internal key. */
  function NumberPart(k: IKeyBytes): nat {
    TagPart(k) / 256
  }

  function KindPart(k: IKeyBytes): nat {
    TagPart(k) % 256
  }

  /** r is what an entry of the user key that was asked for says. */
  ghost predicate Says(kv: KV, r: Answer)
    requires IsInternal(kv.key)
  {
    && (KindPart(kv.key) == 1 ==> r == Found(kv.value))
    && (KindPart(kv.key) == 0 ==> r == Deleted)
    && (KindPart(kv.key) > 1 ==> r == Corrupt)
  }

  /** r is the answer at position i. An entry of another user key may or may not be looked at,
      so if its type is bad the answer is Corrupt or Absent. */
  ghost predicate AnswersAt(all: seq<KV>, k: IKeyBytes, i: nat, r: Answer)
    requires AllInternal(all)
  {
    if i < |all| && UserPart(all[i].key) == UserPart(k) then Says(all[i], r)
    else r == Absent || (r == Corrupt && i < |all| && KindPart(all[i].key) > 1)
  }

  lemma SaveAnswers(all: seq<KV>, k: IKeyBytes, i: nat)
    requires AllInternal(all) && i < |all|
    ensures AnswersAt(all, k, i, Save(all[i], k))
  {
  }

  /** Entry i belongs to the user key of k and is not newer than k: its number is smaller, or the
      same with a type that is not larger. */
  ghost predicate Visible(all: seq<KV>, k: IKeyBytes, i: nat)
    requires AllInternal(all) && i < |all|
  {
    && UserPart(all[i].key) == UserPart(k)
    && (NumberPart(all[i].key) < NumberPart(k) ||
        (NumberPart(all[i].key) == NumberPart(k) && KindPart(all[i].key) <= KindPart(k)))
  }

  /** Entry i is the newest of those. */
  ghost predicate NewestVisible(all: seq<KV>, k: IKeyBytes, i: nat)
    requires AllInternal(all) && i < |all|
  {
    Visible(all, k, i) && forall j: nat :: j < |all| && Visible(all, k, j) ==> Visible(all, all[i].key, j)
  }

  /** The newest visible entry of the user key answers; without one the key is absent, unless
      the entry of another key has a bad type. */
  ghost predicate NewestAnswer(all: seq<KV>, k: IKeyBytes, r: Answer) {
    AllInternal(all) &&
    if exists i: nat :: i < |all| && Visible(all, k, i) then
      exists i: nat :: i < |all| && NewestVisible(all, k, i) && Says(all[i], r)
    else
      r == Absent || (r == Corrupt && exists i: nat :: i < |all| && KindPart(all[i].key) > 1)
  }

  lemma TagOrder(a: IKeyBytes, b: IKeyBytes)
    ensures TagPart(a) <= TagPart(b) <==>
      NumberPart(a) < NumberPart(b) || (NumberPart(a) == NumberPart(b) && KindPart(a) <= KindPart(b))
  {
  }

  /** Visible entries are those at or after k, among the entries of its user key. */
  lemma VisibleIffNotBefore(all: seq<KV>, k: IKeyBytes, i: nat)
    requires AllInternal(all) && i < |all| && UserPart(all[i].key) == UserPart(k)
    ensures Visible(all, k, i) <==> !ILess(all[i].key, k)
  {
    LessTotal(UserPart(k), UserPart(k));
    TagOrder(all[i].key, k);
  }

  lemma VisibleFromFirst(all: seq<KV>, k: IKeyBytes, i: nat, j: nat)
    requires AllInternal(all) && SortedPairs(Comparator.KeyOrder, all) && IsFirstFrom(Comparator.KeyOrder, all, k, i)
    requires j < |all| && Visible(all, k, j)
    ensures i <= j && UserPart(all[i].key) == UserPart(k)
  {
    VisibleIffNotBefore(all, k, j);
    if i < j {
      assert Comparator.KeyOrder(all[i].key, all[j].key);
      LessTotal(UserPart(all[i].key), UserPart(k));
    }
  }

  /** Every visible entry is at or behind the first one at or after k. */
  lemma FirstIsNewest(all: seq<KV>, k: IKeyBytes, i: nat, l: nat)
    requires SortedPairs(Comparator.KeyOrder, all) && AllInternal(all) && IsFirstFrom(Comparator.KeyOrder, all, k, i)
    requires l < |all| && Visible(all, k, l)
    ensures i <= l && Visible(all, all[i].key, l) && Visible(all, k, i)
  {
    VisibleFromFirst(all, k, i, l);
    VisibleIffNotBefore(all, k, i);
    VisibleIffNotBefore(all, all[i].key, l);
    if i < l {
      assert Comparator.KeyOrder(all[i].key, all[l].key);
      ILessTotal(all[i].key, all[l].key);
    } else {
      ILessTotal(all[i].key, all[i].key);
    }
  }

  /** The linear search finds the newest visible entry. */
  lemma LinearIsNewest(all: seq<KV>, k: IKeyBytes, r: Answer)
    requires SortedPairs(Comparator.KeyOrder, all) && LinearAnswer(Comparator.KeyOrder, all, k, r)
    ensures NewestAnswer(all, k, r)
  {
    var i: nat :| IsFirstFrom(Comparator.KeyOrder, all, k, i) && AnswersAt(all, k, i, r);
    if j: nat :| j < |all| && Visible(all, k, j) {
      FirstIsNewest(all, k, i, j);
      forall l: nat | l < |all| && Visible(all, k, l) ensures Visible(all, all[i].key, l) {
        FirstIsNewest(all, k, i, l);
      }
      assert NewestVisible(all, k, i);
    } else if i < |all| && UserPart(all[i].key) == UserPart(k) {
      VisibleIffNotBefore(all, k, i);
      assert false;
    }
  }

  /** The first entry at or after k decides. */
  ghost predicate LinearAnswer(less: KeyLess, all: seq<KV>, k: IKeyBytes, r: Answer) {
    AllInternal(all) && exists i: nat :: IsFirstFrom(less, all, k, i) && AnswersAt(all, k, i, r)
  }

  lemma FirstUnique(less: KeyLess, all: seq<KV>, k: Bytes, i: nat, j: nat)
    requires IsFirstFrom(less, all, k, i) && IsFirstFrom(less, all, k, j)
    ensures i == j
  {
  }

  /** There is exactly one such answer, up to bad types under another user key. */
  lemma LinearUnique(less: KeyLess, all: seq<KV>, k: IKeyBytes, r: Answer, r': Answer)
    requires LinearAnswer(less, all, k, r) && LinearAnswer(less, all, k, r')
    ensures r == r' || (r == Absent && r' == Corrupt) || (r == Corrupt && r' == Absent)
    ensures (forall i :: 0 <= i < |all| ==> KindPart(all[i].key) <= 1) ==> r == r'
  {
    var i: nat :| IsFirstFrom(less, all, k, i) && AnswersAt(all, k, i, r);
    var j: nat :| IsFirstFrom(less, all, k, j) && AnswersAt(all, k, j, r');
    FirstUnique(less, all, k, i, j);
  }

  // ---- The index ----

  /** A finished table. */
  ghost predicate TableOk(less: KeyLess, all: seq<KV>, cuts: seq<nat>, handles: seq<Handle>, index: seq<KV>) {
    && IsOrder(less) && SortedPairs(less, all) && AllInternal(all) && GoodCuts(all, cuts) && cuts[|cuts| - 1] == |all|
    && |cuts| == |index| + 1 && IndexOk(less, all, cuts, handles, index)
  }

  /** The index key of block j is at or after all keys up to the end of the block. */
  lemma IndexCovers(less: KeyLess, all: seq<KV>, cuts: seq<nat>, handles: seq<Handle>, index: seq<KV>, j: nat, i: nat)
    requires TableOk(less, all, cuts, handles, index) && j < |index| && i < cuts[j + 1]
    ensures !less(index[j].key, all[i].key)
  {
    var c := cuts[j + 1];
    assert IndexAt(less, all, cuts, handles, index, j);
    if i < c - 1 {
      assert less(all[i].key, all[c - 1].key);
    }
  }

  /** ... and before all keys after it. */
  lemma IndexBefore(less: KeyLess, all: seq<KV>, cuts: seq<nat>, handles: seq<Handle>, index: seq<KV>, j: nat, i: nat)
    requires TableOk(less, all, cuts, handles, index) && j < |index| && cuts[j + 1] <= i < |all|
    ensures less(index[j].key, all[i].key)
  {
    var c := cuts[j + 1];
    assert IndexAt(less, all, cuts, handles, index, j);
    if c < i {
      assert less(all[c].key, all[i].key);
    }
  }

  lemma IndexSorted(less: KeyLess, all: seq<KV>, cuts: seq<nat>, handles: seq<Handle>, index: seq<KV>)
    requires TableOk(less, all, cuts, handles, index)
    ensures SortedPairs(less, index)
  {
    forall j, l | 0 <= j < l < |index| ensures less(index[j].key, index[l].key) {
      var c := cuts[j + 1];
      assert c < cuts[l + 1] <= |all|;
      IndexBefore(less, all, cuts, handles, index, j, c);
      IndexCovers(less, all, cuts, handles, index, l, c);
      NotLess(less, index[j].key, all[c].key, index[l].key);
    }
  }

  lemma NotLess(less: KeyLess, a: Bytes, b: Bytes, c: Bytes)
    requires IsOrder(less) && less(a, b) && !less(c, b)
    ensures less(a, c)
  {
    if b != c {
      assert less(b, c);
    }
  }

  lemma BlockSorted(less: KeyLess, all: seq<KV>, cuts: seq<nat>, j: nat)
    requires SortedPairs(less, all) && GoodCuts(all, cuts) && j < |cuts|
    ensures SortedPairs(less, BlockOf(all, cuts, j))
  {
    var b := BlockOf(all, cuts, j);
    forall x, y | 0 <= x < y < |b| ensures less(b[x].key, b[y].key) {
      assert b[x] == all[cuts[j] + x] && b[y] == all[cuts[j] + y];
    }
  }

  // ---- The lookup ----

  /** k is after every index key: nothing in the table is at or after it. */
  lemma PastTheEnd(less: KeyLess, all: seq<KV>, cuts: seq<nat>, handles: seq<Handle>, index: seq<KV>, k: IKeyBytes)
    requires TableOk(less, all, cuts, handles, index) && IsFirstFrom(less, index, k, |index|)
    ensures LinearAnswer(less, all, k, Absent)
  {
    forall i | 0 <= i < |all| ensures less(all[i].key, k) {
      var l := |index| - 1;
      IndexCovers(less, all, cuts, handles, index, l, i);
      assert less(index[l].key, k);
      LessVia(less, all[i].key, index[l].key, k);
    }
    assert IsFirstFrom(less, all, k, |all|) && AnswersAt(all, k, |all|, Absent);
  }

  lemma LessVia(less: KeyLess, a: Bytes, b: Bytes, c: Bytes)
    requires IsOrder(less) && !less(b, a) && less(b, c)
    ensures less(a, c)
  {
    if a != b {
      assert less(a, b);
    }
  }

  /** Every entry before the block that the index points at is before k. */
  lemma BeforeBlock(less: KeyLess, all: seq<KV>, cuts: seq<nat>, handles: seq<Handle>, index: seq<KV>, k: IKeyBytes,
                    j: nat, i: nat)
    requires TableOk(less, all, cuts, handles, index) && j < |index| && IsFirstFrom(less, index, k, j) && i < cuts[j]
    ensures less(all[i].key, k)
  {
    assert j > 0;
    IndexCovers(less, all, cuts, handles, index, j - 1, i);
    assert less(index[j - 1].key, k);
    LessVia(less, all[i].key, index[j - 1].key, k);
  }

  /** What comes before position x of block j is before k. */
  lemma BeforeIn(less: KeyLess, all: seq<KV>, cuts: seq<nat>, handles: seq<Handle>, index: seq<KV>, k: IKeyBytes,
                 j: nat, x: nat)
    requires TableOk(less, all, cuts, handles, index) && j < |index| && IsFirstFrom(less, index, k, j)
    requires IsFirstFrom(less, BlockOf(all, cuts, j), k, x)
    ensures cuts[j] + x <= |all| && forall y :: 0 <= y < cuts[j] + x ==> less(all[y].key, k)
  {
    var b := BlockOf(all, cuts, j);
    forall y | 0 <= y < cuts[j] + x ensures less(all[y].key, k) {
      if y < cuts[j] {
        BeforeBlock(less, all, cuts, handles, index, k, j, y);
      } else {
        assert b[y - cuts[j]] == all[y];
      }
    }
  }

  /** The block seek finds what the linear search finds, or nothing where the linear search
      finds a different user key. */
  lemma BlockDecides(less: KeyLess, all: seq<KV>, cuts: seq<nat>, handles: seq<Handle>, index: seq<KV>, k: IKeyBytes,
                     j: nat, x: nat, r: Answer)
    requires TableOk(less, all, cuts, handles, index) && j < |index| && IsFirstFrom(less, index, k, j)
    requires IsFirstFrom(less, BlockOf(all, cuts, j), k, x)
    requires AllInternal(BlockOf(all, cuts, j)) && AnswersAt(BlockOf(all, cuts, j), k, x, r)
    ensures LinearAnswer(less, all, k, r)
  {
    var b := BlockOf(all, cuts, j);
    BeforeIn(less, all, cuts, handles, index, k, j, x);
    if x < |b| {
      FoundInBlock(less, b, all, k, x, cuts[j] + x, r);
    } else {
      AfterBlock(less, all, cuts, handles, index, k, j);
    }
  }

  /** An answer from inside a block is the answer for the table, if all before it is before k. */
  lemma FoundInBlock(less: KeyLess, b: seq<KV>, all: seq<KV>, k: IKeyBytes, x: nat, i: nat, r: Answer)
    requires AllInternal(b) && AllInternal(all) && x < |b| && i < |all| && b[x] == all[i] && AnswersAt(b, k, x, r)
    requires IsFirstFrom(less, b, k, x) && forall y :: 0 <= y < i ==> less(all[y].key, k)
    ensures LinearAnswer(less, all, k, r)
  {
    assert IsFirstFrom(less, all, k, i) && AnswersAt(all, k, i, r);
  }

  /** All of block j is before k, but its index key is not. */
  lemma AfterBlock(less: KeyLess, all: seq<KV>, cuts: seq<nat>, handles: seq<Handle>, index: seq<KV>, k: IKeyBytes,
                   j: nat)
    requires TableOk(less, all, cuts, handles, index) && j < |index| && !less(index[j].key, k)
    requires forall y :: 0 <= y < cuts[j + 1] ==> less(all[y].key, k)
    ensures LinearAnswer(less, all, k, Absent)
  {
    var c := cuts[j + 1];
    assert IndexAt(less, all, cuts, handles, index, j);
    if c < |all| {
      NotLessThan(less, k, index[j].key, all[c].key);
      assert IsFirstFrom(less, all, k, c);
      assert less(all[c - 1].key, k);
      assert UserPart(k) != UserPart(all[c].key);
      assert AnswersAt(all, k, c, Absent);
    } else {
      assert IsFirstFrom(less, all, k, c) && AnswersAt(all, k, c, Absent);
    }
  }

  lemma NotLessThan(less: KeyLess, k: Bytes, s: Bytes, f: Bytes)
    requires IsOrder(less) && !less(s, k) && less(s, f)
    ensures !less(f, k)
  {
  }

  /** The filter may skip block j when k's user key is not in it. */
  lemma SkipIsSafe(less: KeyLess, all: seq<KV>, cuts: seq<nat>, handles: seq<Handle>, index: seq<KV>, k: IKeyBytes,
                   j: nat, x: nat)
    requires TableOk(less, all, cuts, handles, index) && j < |index| && IsFirstFrom(less, index, k, j)
    requires UserPart(k) !in UsersOf(all, cuts, j) && IsFirstFrom(less, BlockOf(all, cuts, j), k, x)
    ensures LinearAnswer(less, all, k, Absent)
  {
    var b := BlockOf(all, cuts, j);
    if x < |b| {
      assert UsersOf(all, cuts, j)[x] == UserPart(b[x].key);
    }
    BlockDecides(less, all, cuts, handles, index, k, j, x, Absent);
  }

  /** Seeks always land somewhere. */
  lemma {:induction false} FirstExists(less: KeyLess, pairs: seq<KV>, k: Bytes, n: nat) returns (i: nat)
    requires IsOrder(less) && SortedPairs(less, pairs) && n <= |pairs|
    requires forall y :: n <= y < |pairs| ==> !less(pairs[y].key, k)
    ensures IsFirstFrom(less, pairs, k, i)
  {
    if n > 0 && !less(pairs[n - 1].key, k) {
      i := FirstExists(less, pairs, k, n - 1);
    } else {
      i := n;
      forall y | 0 <= y < n ensures less(pairs[y].key, k) {
        if y < n - 1 {
          assert less(pairs[y].key, pairs[n - 1].key);
        }
      }
    }
  }
}
