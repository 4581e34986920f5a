/** DBIter: the user's cursor. Whatever mix of calls and direction changes it goes
    through, it stands where a cursor over the sorted map of visible values stands. */
module DbIterator {
  import opened Wrappers
  import opened DbFormat
  import opened Merger

  // ---- The map a snapshot shows ----

  /** e is the first visible entry of its user key. */
  ghost predicate IsTop(U: set<Entry>, s: nat, e: Entry) {
    e in U && e.sn <= s && forall x :: x in U && x.key == e.key && x.sn <= s ==> !LessE(x, e)
  }

  /** The entries whose values snapshot s shows: one for each key that is present. */
  ghost function Shown(U: set<Entry>, s: nat): set<Entry> {
    set e | e in U && IsTop(U, s, e) && e.kind.Value?
  }

  ghost function KeysFrom(S: set<Entry>, k: UserKey): set<Entry> {
    set e | e in S && e.key >= k
  }

  ghost function KeysAbove(S: set<Entry>, k: UserKey): set<Entry> {
    set e | e in S && e.key > k
  }

  ghost function KeysBelow(S: set<Entry>, k: UserKey): set<Entry> {
    set e | e in S && e.key < k
  }

  ghost predicate DistinctKeys(U: set<Entry>) {
    forall x, y :: x in U && y in U && IKey(x) == IKey(y) ==> x == y
  }

  /** What an iterator shows is what Get answers. */
  lemma ShownIsRead(U: set<Entry>, s: nat, k: UserKey, v: string)
    requires UniqueSeqs(U)
    ensures Reads(U, k, s, Some(v)) <==> exists e :: e in Shown(U, s) && e.key == k && e.value == v
  {
    forall e | e in U ensures IsTop(U, s, e) <==> Newest(U, e.key, s, e) {
      forall x | x in U && x.key == e.key && x.sn <= s ensures LessE(x, e) <==> x.sn > e.sn {
        TagOrder(IKey(x), IKey(e));
      }
    }
    if e :| Newest(U, k, s, e) && e.kind.Value? && e.value == v {
      assert e in Shown(U, s);
    }
    if e :| e in Shown(U, s) && e.key == k && e.value == v {
      assert Newest(U, k, s, e);
    }
  }

  // ---- Scanning forward ----

  ghost function From(U: set<Entry>, c: Entry): set<Entry> {
    set x | x in U && !LessE(x, c)
  }

  /** The shown entries the forward scan may still stop at. */
  ghost function Pending(U: set<Entry>, s: nat, c: Entry, skipping: bool, skip: UserKey): set<Entry> {
    set e | e in Shown(U, s) && !LessE(e, c) && !(skipping && e.key <= skip)
  }

  /** Every visible entry the scan has passed belongs to a key it is done with, and no
      visible entry ahead lies below the skip key. */
  ghost predicate Passed(U: set<Entry>, s: nat, c: Entry, skipping: bool, skip: UserKey) {
    && (forall x :: x in U && LessE(x, c) && x.sn <= s ==> (skipping && x.key <= skip) || x.key < c.key)
    && (skipping ==> forall x :: x in U && !LessE(x, c) && x.sn <= s ==> skip <= x.key)
  }

  lemma StopHere(U: set<Entry>, s: nat, c: Entry, skipping: bool, skip: UserKey)
    requires c in U && Passed(U, s, c, skipping, skip)
    requires c.sn <= s && c.kind.Value? && !(skipping && c.key <= skip)
    ensures Least(Pending(U, s, c, skipping, skip), Some(c)) && c in Shown(U, s)
  {
    assert IsTop(U, s, c);
  }

  /** Moving on from c to the next entry d, with the skip key the scan chooses. */
  lemma StepOn(U: set<Entry>, s: nat, c: Entry, d: Entry, skipping: bool, skip: UserKey, skipping': bool,
               skip': UserKey)
    requires DistinctKeys(U) && c in U && Passed(U, s, c, skipping, skip) && Least(After(U, c), Some(d))
    requires c.sn > s ==> skipping' == skipping && skip' == skip
    requires c.sn <= s && c.kind.Deletion? ==> skipping' && skip' == c.key
    requires c.sn <= s && c.kind.Value? ==> skipping && c.key <= skip && skipping' && skip' == skip
    ensures Passed(U, s, d, skipping', skip')
    ensures Pending(U, s, d, skipping', skip') == Pending(U, s, c, skipping, skip)
    ensures From(U, d) < From(U, c)
  {
    assert forall x :: x in U && LessE(x, d) ==> x == c || LessE(x, c);
    assert c in From(U, c) && c !in From(U, d);
    forall e | e in Pending(U, s, c, skipping, skip) ensures e in Pending(U, s, d, skipping', skip') {
      assert IsTop(U, s, e);
    }
    forall e | e in Pending(U, s, d, skipping', skip') ensures e in Pending(U, s, c, skipping, skip) {
    }
  }

  lemma NothingLeft(U: set<Entry>, s: nat, c: Entry, skipping: bool, skip: UserKey)
    requires DistinctKeys(U) && c in U && After(U, c) == {}
    requires c.sn <= s && c.kind.Value? ==> skipping && c.key <= skip
    ensures Pending(U, s, c, skipping, skip) == {}
  {
    assert From(U, c) <= {c} by {
      forall x | x in From(U, c) ensures x == c {
        assert x !in After(U, c);
      }
    }
  }

  // ---- Scanning backward ----

  ghost function UpTo(U: set<Entry>, c: Option<Entry>): set<Entry> {
    match c
    case None => {}
    case Some(e) => set x | x in U && !LessE(e, x)
  }

  /** The backward scan over B has still to look at `rest`; v is the entry whose value
      is saved, if the last visible entry it saw was a value. */
  ghost predicate Scanned(B: set<Entry>, s: nat, rest: set<Entry>, v: Option<Entry>) {
    && rest <= B && (forall x, y :: x in rest && y in B && y !in rest ==> LessE(x, y))
    && match v
       case None => Shown(B - rest, s) == {}
       case Some(e) =>
         && e in Shown(B - rest, s)
         && (forall x :: x in Shown(B - rest, s) ==> x.key <= e.key)
         && forall x :: x in B - rest && x.key < e.key ==> x.sn > s
  }

  /** Adding an entry in front of S changes what S shows only for its own key. */
  lemma ShownInFront(S: set<Entry>, s: nat, c: Entry)
    requires c !in S && forall x :: x in S ==> LessE(c, x)
    ensures c.sn > s ==> Shown(S + {c}, s) == Shown(S, s)
    ensures c.sn <= s ==> forall e :: e in S ==> (e in Shown(S + {c}, s) <==> e in Shown(S, s) && e.key != c.key)
    ensures c in Shown(S + {c}, s) <==> c.sn <= s && c.kind.Value?
  {
    forall e | e in S ensures IsTop(S + {c}, s, e) <==> IsTop(S, s, e) && (c.sn > s || e.key != c.key) {
    }
  }

  /** Looking at c, the last entry of rest. */
  lemma ScanStep(B: set<Entry>, s: nat, rest: set<Entry>, v: Option<Entry>, c: Entry, v': Option<Entry>)
    requires DistinctKeys(B) && Scanned(B, s, rest, v) && Greatest(rest, Some(c))
    requires c.sn > s ==> v' == v
    requires c.sn <= s ==> (v.Some? ==> v.value.key <= c.key) && v' == if c.kind.Value? then Some(c) else None
    ensures Scanned(B, s, rest - {c}, v')
  {
    assert B - (rest - {c}) == (B - rest) + {c};
    ShownInFront(B - rest, s, c);
    if v.Some? && c.sn <= s {
      assert v.value in B - rest;
    }
  }

  /** Stopping before a visible entry of a smaller key: v is the answer. */
  lemma ScanStops(B: set<Entry>, s: nat, rest: set<Entry>, v: Option<Entry>)
    requires DistinctKeys(B) && Scanned(B, s, rest, v) && (v.None? ==> rest == {})
    requires v.Some? ==> forall x :: x in rest ==> x.key < v.value.key
    ensures Greatest(Shown(B, s), v)
  {
    if v.Some? {
      var e := v.value;
      assert IsTop(B - rest, s, e);
      assert IsTop(B, s, e);
      forall x | x in Shown(B, s) ensures !LessE(e, x) {
        if x !in rest {
          assert IsTop(B - rest, s, x);
        }
      }
    } else {
      assert B - rest == B;
    }
  }

  /** In reverse the inner iterator rests below all visible entries of the current key. */
  ghost predicate Resting(U: set<Entry>, s: nat, c: Option<Entry>, k: UserKey) {
    && (c.Some? ==> c.value.key < k)
    && forall x :: x in U && x.key < k && x.sn <= s ==> x in UpTo(U, c)
  }

  /** What is below a resting place is what is shown below the key. */
  lemma RestingShows(U: set<Entry>, s: nat, c: Option<Entry>, k: UserKey)
    requires Resting(U, s, c, k)
    ensures Shown(UpTo(U, c), s) == KeysBelow(Shown(U, s), k)
  {
    var B := UpTo(U, c);
    forall e | e in B ensures IsTop(B, s, e) <==> IsTop(U, s, e) {
    }
  }

  lemma UnionDistinct(cs: Children)
    requires GoodChildren(cs)
    ensures DistinctKeys(Union(cs))
  {
    forall x, y | x in Union(cs) && y in Union(cs) && IKey(x) == IKey(y) ensures x == y {
      var i, j := InUnion(cs, x);
      var i', j' := InUnion(cs, y);
    }
  }

  class DBIter {
    const iter: MergingIterator
    const sequence: nat
    var savedKey: UserKey
    var savedValue: string
    var direction: Direction
    var valid: bool
    ghost var cursor: Option<Entry>

    ghost function U(): set<Entry> {
      iter.All()
    }

    /** The sorted map being walked. */
    ghost function View(): set<Entry> {
      Shown(iter.All(), sequence)
    }

    ghost predicate Valid()
      reads this, iter
    {
      && iter.Valid() && (valid <==> cursor.Some?)
      && (valid ==> cursor.value in View())
      && (valid && direction.Forward? ==> iter.Current() == cursor)
      && (valid && direction.Reverse? ==> savedKey == cursor.value.key && savedValue == cursor.value.value)
      && (valid && direction.Reverse? ==> Resting(U(), sequence, iter.Current(), savedKey))
    }

    function Key(): (k: UserKey)
      requires Valid() && valid
      reads this, iter
      ensures k == cursor.value.key
    {
      if direction.Forward? then iter.Current().value.key else savedKey
    }

    function Value(): (v: string)
      requires Valid() && valid
      reads this, iter
      ensures v == cursor.value.value
    {
      if direction.Forward? then iter.Current().value.value else savedValue
    }

    constructor (iter: MergingIterator, sequence: nat)
      requires iter.Valid()
      ensures Valid() && !valid && this.iter == iter && this.sequence == sequence
    {
      this.iter := iter;
      this.sequence := sequence;
      savedKey, savedValue, direction, valid, cursor := 0, "", Forward, false, None;
    }

    method FindNextUserEntry(skipping0: bool)
      requires iter.Valid() && iter.Positioned() && direction.Forward?
      requires Passed(U(), sequence, iter.Current().value, skipping0, savedKey)
      modifies this, iter
      ensures Valid() && Least(old(Pending(U(), sequence, iter.Current().value, skipping0, savedKey)), cursor)
    {
      UnionDistinct(iter.children);
      var skipping := skipping0;
      ghost var goal := Pending(U(), sequence, iter.Current().value, skipping0, savedKey);
      while true
        invariant iter.Valid() && iter.Positioned() && direction.Forward?
        invariant Passed(U(), sequence, iter.Current().value, skipping, savedKey)
        invariant goal == Pending(U(), sequence, iter.Current().value, skipping, savedKey)
        decreases From(U(), iter.Current().value)
      {
        var e := iter.Current().value;
        ghost var skipping', skip' := skipping, savedKey;
        if e.sn <= sequence {
          match e.kind {
            case Deletion =>
              savedKey := e.key;
              skipping := true;
            case Value =>
              if !(skipping && e.key <= savedKey) {
                StopHere(U(), sequence, e, skipping, savedKey);
                valid := true;
                savedKey := 0;
                cursor := Some(e);
                return;
              }
          }
        }
        iter.Next();
        if !iter.Positioned() {
          NothingLeft(U(), sequence, e, skipping', skip');
          break;
        }
        StepOn(U(), sequence, e, iter.Current().value, skipping', skip', skipping, savedKey);
      }
      savedKey := 0;
      valid := false;
      cursor := None;
    }

    method Next()
      requires Valid() && valid
      modifies this, iter
      ensures Valid() && Least(KeysAbove(View(), old(Key())), cursor)
    {
      ghost var here := cursor.value;
      if direction.Reverse? {
        direction := Forward;
        ghost var rest := iter.Current();
        if !iter.Positioned() {
          iter.SeekToFirst();
        } else {
          iter.Next();
        }
        AfterRest(U(), sequence, rest, here, iter.Current());
        if !iter.Positioned() {
          assert false;
        }
      } else {
        savedKey := iter.Current().value.key;
        AfterHere(U(), sequence, here);
      }
      FindNextUserEntry(true);
    }

    method FindPrevUserEntry()
      requires iter.Valid() && direction.Reverse?
      requires Shown(UpTo(U(), iter.Current()), sequence) <= View()
      modifies this, iter
      ensures Valid() && Greatest(old(Shown(UpTo(U(), iter.Current()), sequence)), cursor)
    {
      UnionDistinct(iter.children);
      ghost var start := iter.Current();
      ghost var v: Option<Entry> := None;
      var valueType := Deletion;
      assert Shown({}, sequence) == {};
      assert UpTo(U(), start) - UpTo(U(), start) == {};
      while iter.Positioned()
        invariant iter.Valid() && direction.Reverse?
        invariant Scanned(UpTo(U(), start), sequence, UpTo(U(), iter.Current()), v)
        invariant valueType.Value? <==> v.Some?
        invariant v.Some? ==> savedKey == v.value.key && savedValue == v.value.value
        decreases UpTo(U(), iter.Current())
      {
        var e := iter.Current().value;
        ghost var v' := v;
        if e.sn <= sequence {
          if valueType.Value? && e.key < savedKey {
            break;
          }
          valueType := e.kind;
          if valueType.Deletion? {
            savedKey, savedValue := 0, "";
            v := None;
          } else {
            savedKey, savedValue := e.key, e.value;
            v := Some(e);
          }
        }
        ScanStep(UpTo(U(), start), sequence, UpTo(U(), iter.Current()), v', e, v);
        iter.Prev();
        UpToPrev(U(), e, iter.Current());
      }
      ScanDone(U(), start, sequence, iter.Current(), v);
      cursor := v;
      if valueType.Deletion? {
        valid := false;
        savedKey, savedValue := 0, "";
        direction := Forward;
      } else {
        valid := true;
      }
    }

    method Prev()
      requires Valid() && valid
      modifies this, iter
      ensures Valid() && Greatest(KeysBelow(View(), old(Key())), cursor)
    {
      ghost var here := cursor.value;
      if direction.Forward? {
        UnionDistinct(iter.children);
        savedKey := iter.Current().value.key;
        while true
          invariant iter.Valid() && iter.Positioned() && valid && cursor == Some(here) && direction.Forward?
          invariant savedKey == here.key <= iter.Current().value.key
          invariant forall x :: x in U() && x.key < savedKey ==> x in UpTo(U(), iter.Current())
          decreases UpTo(U(), iter.Current())
        {
          ghost var e := iter.Current().value;
          iter.Prev();
          UpToPrev(U(), e, iter.Current());
          if !iter.Positioned() {
            RestingShows(U(), sequence, None, here.key);
            valid := false;
            cursor := None;
            savedKey, savedValue := 0, "";
            return;
          }
          if iter.Current().value.key < savedKey {
            break;
          }
        }
        direction := Reverse;
      }
      RestingShows(U(), sequence, iter.Current(), here.key);
      FindPrevUserEntry();
    }

    method Seek(target: UserKey)
      requires Valid()
      modifies this, iter
      ensures Valid() && Least(KeysFrom(View(), target), cursor)
    {
      direction := Forward;
      savedValue := "";
      iter.Seek(LookupKey(target, sequence));
      SeekFinds(U(), sequence, target, iter.Current());
      if iter.Positioned() {
        FindNextUserEntry(false);
      } else {
        valid := false;
        cursor := None;
      }
    }

    method SeekToFirst()
      requires Valid()
      modifies this, iter
      ensures Valid() && Least(View(), cursor)
    {
      direction := Forward;
      savedValue := "";
      iter.SeekToFirst();
      if iter.Positioned() {
        assert Pending(U(), sequence, iter.Current().value, false, savedKey) == View();
        FindNextUserEntry(false);
      } else {
        valid := false;
        cursor := None;
      }
    }

    method SeekToLast()
      requires Valid()
      modifies this, iter
      ensures Valid() && Greatest(View(), cursor)
    {
      direction := Reverse;
      savedValue := "";
      iter.SeekToLast();
      assert UpTo(U(), iter.Current()) == U();
      FindPrevUserEntry();
    }
  }

  lemma SeekFinds(U: set<Entry>, s: nat, k: UserKey, d: Option<Entry>)
    requires Least(AtLeast(U, LookupKey(k, s)), d)
    ensures d.None? ==> KeysFrom(Shown(U, s), k) == {}
    ensures d.Some? ==>
      Passed(U, s, d.value, false, 0) && forall skip :: Pending(U, s, d.value, false, skip) == KeysFrom(Shown(U, s), k)
  {
    forall x | x in U && x.sn <= s ensures x in AtLeast(U, LookupKey(k, s)) <==> x.key >= k {
      if x.key == k {
        VisibleIffNotBefore(x, k, s);
      }
    }
  }

  lemma UpToPrev(U: set<Entry>, c: Entry, d: Option<Entry>)
    requires DistinctKeys(U) && c in U && Greatest(Before(U, c), d)
    ensures UpTo(U, d) == UpTo(U, Some(c)) - {c} && UpTo(U, d) < UpTo(U, Some(c))
  {
    assert forall x :: x in UpTo(U, Some(c)) && x != c ==> x in Before(U, c);
    assert c in UpTo(U, Some(c));
  }

  lemma StopResting(U: set<Entry>, b: Option<Entry>, s: nat, c: Option<Entry>, v: Entry)
    requires Scanned(UpTo(U, b), s, UpTo(U, c), Some(v)) && (c.Some? ==> c.value.key < v.key)
    ensures Resting(U, s, c, v.key)
  {
    forall x | x in U && x.key < v.key && x.sn <= s ensures x in UpTo(U, c) {
      assert v in UpTo(U, b);
      assert x in UpTo(U, b);
    }
  }

  lemma ScanDone(U: set<Entry>, b: Option<Entry>, s: nat, c: Option<Entry>, v: Option<Entry>)
    requires DistinctKeys(U) && Scanned(UpTo(U, b), s, UpTo(U, c), v)
    requires c.Some? ==> v.Some? && c.value.key < v.value.key
    ensures Greatest(Shown(UpTo(U, b), s), v)
    ensures v.Some? ==> Resting(U, s, c, v.value.key)
  {
    ScanStops(UpTo(U, b), s, UpTo(U, c), v);
    if v.Some? {
      StopResting(U, b, s, c, v.value);
    }
  }

  // ---- Whole runs ----

  datatype Call = First | Last | SeekTo(key: UserKey) | GoNext | GoPrev

  /** One call on a cursor over the sorted map V; Next and Prev need a valid cursor. */
  ghost predicate Moves(V: set<Entry>, c: Option<Entry>, call: Call, d: Option<Entry>) {
    match call
    case First => Least(V, d)
    case Last => Greatest(V, d)
    case SeekTo(k) => Least(KeysFrom(V, k), d)
    case GoNext => if c.Some? then Least(KeysAbove(V, c.value.key), d) else d == c
    case GoPrev => if c.Some? then Greatest(KeysBelow(V, c.value.key), d) else d == c
  }

  /** The cursor over V is determined by the calls. */
  lemma MovesUnique(V: set<Entry>, c: Option<Entry>, call: Call, d: Option<Entry>, d': Option<Entry>)
    requires DistinctKeys(V) && Moves(V, c, call, d) && Moves(V, c, call, d')
    ensures d == d'
  {
  }

  /** Where the calls take the cursor from no position. */
  ghost predicate Walked(V: set<Entry>, calls: seq<Call>, path: seq<Option<Entry>>) {
    && |path| == |calls| + 1 && path[0] == None
    && forall i :: 0 <= i < |calls| ==> Moves(V, path[i], calls[i], path[i + 1])
  }

  /** So is everything that a sequence of calls shows. */
  lemma {:induction false} WalkUnique(V: set<Entry>, calls: seq<Call>, path: seq<Option<Entry>>,
                                      path': seq<Option<Entry>>, i: nat)
    requires DistinctKeys(V) && Walked(V, calls, path) && Walked(V, calls, path') && i < |path|
    ensures path[i] == path'[i]
  {
    if i > 0 {
      WalkUnique(V, calls, path, path', i - 1);
      MovesUnique(V, path[i - 1], calls[i - 1], path[i], path'[i]);
    }
  }

  function Pair(e: Option<Entry>): Option<(UserKey, string)> {
    if e.None? then None else Some((e.value.key, e.value.value))
  }

  /** Any mix of calls shows the caller what the cursor over the sorted map shows. */
  method Walk(it: DBIter, calls: seq<Call>)
    returns (seen: seq<Option<(UserKey, string)>>, ghost path: seq<Option<Entry>>)
    requires it.Valid() && it.cursor.None?
    modifies it, it.iter
    ensures it.Valid() && |seen| == |calls| && Walked(it.View(), calls, path)
    ensures forall i :: 0 <= i < |calls| ==> seen[i] == Pair(path[i + 1])
  {
    seen, path := [], [None];
    for i := 0 to |calls|
      invariant it.Valid() && |seen| == i && |path| == i + 1 && path[0] == None && path[i] == it.cursor
      invariant forall k :: 0 <= k < i ==>
        Moves(it.View(), path[k], calls[k], path[k + 1]) && seen[k] == Pair(path[k + 1])
    {
      match calls[i] {
        case First => it.SeekToFirst();
        case Last => it.SeekToLast();
        case SeekTo(k) => it.Seek(k);
        case GoNext => if it.valid { it.Next(); }
        case GoPrev => if it.valid { it.Prev(); }
      }
      seen := seen + [if it.valid then Some((it.Key(), it.Value())) else None];
      path := path + [it.cursor];
    }
  }

  /** Stepping forward out of the resting place. */
  lemma AfterRest(U: set<Entry>, s: nat, rest: Option<Entry>, here: Entry, d: Option<Entry>)
    requires here in Shown(U, s) && Resting(U, s, rest, here.key)
    requires Least(if rest.Some? then After(U, rest.value) else U, d)
    ensures d.Some? && Passed(U, s, d.value, true, here.key)
    ensures Pending(U, s, d.value, true, here.key) == KeysAbove(Shown(U, s), here.key)
  {
    assert here in if rest.Some? then After(U, rest.value) else U;
  }

  lemma AfterHere(U: set<Entry>, s: nat, here: Entry)
    requires here in Shown(U, s)
    ensures Passed(U, s, here, true, here.key)
    ensures Pending(U, s, here, true, here.key) == KeysAbove(Shown(U, s), here.key)
  {
  }
}
