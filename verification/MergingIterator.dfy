/** MergingIterator: one bidirectional cursor over several sorted children, kept
    equal to a cursor over the sorted union through every change of direction. */
module Merger {
  import opened Wrappers
  import opened DbFormat

  datatype Direction = Forward | Reverse

  // ---- Cursors over a set of entries, in internal key order ----

  ghost predicate Least(S: set<Entry>, r: Option<Entry>) {
    match r
    case None => S == {}
    case Some(e) => e in S && forall x :: x in S ==> !LessE(x, e)
  }

  ghost predicate Greatest(S: set<Entry>, r: Option<Entry>) {
    match r
    case None => S == {}
    case Some(e) => e in S && forall x :: x in S ==> !LessE(e, x)
  }

  ghost function After(U: set<Entry>, e: Entry): set<Entry> {
    set x | x in U && LessE(e, x)
  }

  ghost function Before(U: set<Entry>, e: Entry): set<Entry> {
    set x | x in U && LessE(x, e)
  }

  ghost function AtLeast(U: set<Entry>, k: InternalKey): set<Entry> {
    set x | x in U && !Less(IKey(x), k)
  }

  // ---- The children ----

  type Children = seq<seq<Entry>>

  predicate Has(cs: Children, i: int, j: int) {
    0 <= i < |cs| && 0 <= j < |cs[i]|
  }

  /** Sorted children; no internal key occurs twice. */
  ghost predicate GoodChildren(cs: Children) {
    && (forall i :: 0 <= i < |cs| ==> SortedEntries(cs[i]))
    && forall i, j, i', j' :: Has(cs, i, j) && Has(cs, i', j') && IKey(cs[i][j]) == IKey(cs[i'][j']) ==>
      i == i' && j == j'
  }

  ghost function Union(cs: Children): set<Entry> {
    set i, j | 0 <= i < |cs| && 0 <= j < |cs[i]| && Has(cs, i, j) :: cs[i][j]
  }

  /** Where a child lands when asked to Seek: its first entry at or after k. */
  function SeekIndex(es: seq<Entry>, k: InternalKey): (m: nat)
    requires SortedEntries(es)
    ensures m <= |es|
    ensures forall j :: 0 <= j < |es| ==> (j < m <==> Less(IKey(es[j]), k))
  {
    if es == [] then 0
    else if Less(IKey(es[|es| - 1]), k) then |es|
    else SeekIndex(es[..|es| - 1], k)
  }

  /** Child i has not moved past any entry of S and stands at the first one. */
  ghost predicate Cuts(es: seq<Entry>, m: int, S: set<Entry>) {
    0 <= m <= |es| && forall j :: 0 <= j < |es| ==> (es[j] in S <==> m <= j)
  }

  /** S is the later part of the union, and every child stands next to where S begins:
      at its first entry of S (d == 0) or at its last entry outside (d == 1). */
  ghost predicate SplitAt(cs: Children, pos: seq<int>, d: int, S: set<Entry>) {
    && |pos| == |cs| && S <= Union(cs)
    && (forall i :: 0 <= i < |cs| ==> Cuts(cs[i], pos[i] + d, S))
    && forall x, y :: x in Union(cs) && x !in S && y in S ==> LessE(x, y)
  }

  lemma InUnion(cs: Children, x: Entry) returns (i: nat, j: nat)
    requires x in Union(cs)
    ensures Has(cs, i, j) && cs[i][j] == x
  {
    i, j :| Has(cs, i, j) && cs[i][j] == x;
  }

  lemma Distinct(cs: Children, x: Entry, y: Entry)
    requires GoodChildren(cs) && x in Union(cs) && y in Union(cs) && x != y
    ensures LessE(x, y) || LessE(y, x)
  {
    var i, j := InUnion(cs, x);
    var i', j' := InUnion(cs, y);
  }

  /** Child i stands at entry x. */
  ghost predicate Head(cs: Children, pos: seq<int>, i: int, x: Entry)
    requires |pos| == |cs|
  {
    0 <= i < |cs| && 0 <= pos[i] < |cs[i]| && cs[i][pos[i]] == x
  }

  /** Where the scan of FindSmallest ends: c holds the least head, or there is none. */
  ghost predicate SmallestHead(cs: Children, pos: seq<int>, c: int)
    requires |pos| == |cs|
  {
    if c < 0 then forall i, x :: !Head(cs, pos, i, x)
    else 0 <= c < |cs| && 0 <= pos[c] < |cs[c]| && forall i, x :: Head(cs, pos, i, x) ==> !LessE(x, cs[c][pos[c]])
  }

  ghost predicate LargestHead(cs: Children, pos: seq<int>, c: int)
    requires |pos| == |cs|
  {
    if c < 0 then forall i, x :: !Head(cs, pos, i, x)
    else 0 <= c < |cs| && 0 <= pos[c] < |cs[c]| && forall i, x :: Head(cs, pos, i, x) ==> !LessE(cs[c][pos[c]], x)
  }

  function HeadOf(cs: Children, pos: seq<int>, c: int): Option<Entry>
    requires |pos| == |cs| && c < |cs| && (c >= 0 ==> 0 <= pos[c] < |cs[c]|)
  {
    if c < 0 then None else Some(cs[c][pos[c]])
  }

  lemma HeadBelow(cs: Children, pos: seq<int>, S: set<Entry>, x: Entry) returns (i: nat)
    requires GoodChildren(cs) && SplitAt(cs, pos, 0, S) && x in S
    ensures i < |cs| && 0 <= pos[i] < |cs[i]| && !LessE(x, cs[i][pos[i]]) && Head(cs, pos, i, cs[i][pos[i]])
  {
    var i', j := InUnion(cs, x);
    i := i';
    assert Cuts(cs[i], pos[i] + 0, S) && SortedEntries(cs[i]);
  }

  lemma SmallestIsLeast(cs: Children, pos: seq<int>, S: set<Entry>, c: int)
    requires GoodChildren(cs) && SplitAt(cs, pos, 0, S) && SmallestHead(cs, pos, c)
    ensures Least(S, HeadOf(cs, pos, c))
    ensures c >= 0 ==> After(Union(cs), cs[c][pos[c]]) == S - {cs[c][pos[c]]}
  {
    if c < 0 {
      if x :| x in S {
        var i := HeadBelow(cs, pos, S, x);
      }
    } else {
      var cur := cs[c][pos[c]];
      assert Cuts(cs[c], pos[c] + 0, S);
      forall x | x in S ensures !LessE(x, cur) && (x != cur ==> LessE(cur, x)) {
        var i := HeadBelow(cs, pos, S, x);
        if x != cur {
          Distinct(cs, x, cur);
        }
      }
    }
  }

  lemma LargestIsGreatest(cs: Children, pos: seq<int>, S: set<Entry>, c: int)
    requires GoodChildren(cs) && SplitAt(cs, pos, 1, S) && LargestHead(cs, pos, c)
    ensures Greatest(Union(cs) - S, HeadOf(cs, pos, c))
    ensures c >= 0 ==> After(Union(cs), cs[c][pos[c]]) == S
  {
    forall x | x in Union(cs) && x !in S ensures exists i, y :: Head(cs, pos, i, y) && !LessE(y, x) {
      var i, j := InUnion(cs, x);
      assert Cuts(cs[i], pos[i] + 1, S) && SortedEntries(cs[i]);
      assert Head(cs, pos, i, cs[i][pos[i]]);
    }
    if c >= 0 {
      assert Cuts(cs[c], pos[c] + 1, S);
      assert Has(cs, c, pos[c]);
    }
  }

  /** With the current entry out of the way, S and what follows the current entry
      look the same to another child. */
  lemma OtherChild(cs: Children, c: nat, m: nat, i: nat, p: int, S: set<Entry>)
    requires GoodChildren(cs) && Has(cs, c, m) && i < |cs| && i != c && Cuts(cs[i], p, S)
    requires forall x :: x in Union(cs) && x != cs[c][m] ==> (x in S <==> LessE(cs[c][m], x))
    ensures Cuts(cs[i], p, After(Union(cs), cs[c][m]))
  {
    forall j | 0 <= j < |cs[i]| ensures cs[i][j] in S <==> cs[i][j] in After(Union(cs), cs[c][m]) {
      assert Has(cs, i, j);
      assert cs[i][j] in Union(cs);
    }
  }

  /** The other way round. */
  lemma OtherChildBack(cs: Children, c: nat, m: nat, i: nat, p: int, S: set<Entry>)
    requires GoodChildren(cs) && Has(cs, c, m) && i < |cs| && i != c && Cuts(cs[i], p, After(Union(cs), cs[c][m]))
    requires forall x :: x in Union(cs) && x != cs[c][m] ==> (x in S <==> LessE(cs[c][m], x))
    ensures Cuts(cs[i], p, S)
  {
    forall j | 0 <= j < |cs[i]| ensures cs[i][j] in S <==> cs[i][j] in After(Union(cs), cs[c][m]) {
      assert Has(cs, i, j);
      assert cs[i][j] in Union(cs);
    }
  }

  lemma SeekCuts(cs: Children, i: nat, k: InternalKey)
    requires GoodChildren(cs) && i < |cs|
    ensures Cuts(cs[i], SeekIndex(cs[i], k), AtLeast(Union(cs), k))
  {
    forall j | 0 <= j < |cs[i]| ensures cs[i][j] in Union(cs) {
      assert Has(cs, i, j);
    }
  }

  lemma AtLeastIsAfter(cs: Children, c: nat, m: nat)
    requires GoodChildren(cs) && Has(cs, c, m)
    ensures forall x :: x in Union(cs) && x != cs[c][m] ==>
      (x in AtLeast(Union(cs), IKey(cs[c][m])) <==> LessE(cs[c][m], x))
  {
    forall x | x in Union(cs) && x != cs[c][m] ensures !LessE(x, cs[c][m]) <==> LessE(cs[c][m], x) {
      Distinct(cs, x, cs[c][m]);
    }
  }

  lemma OwnChild(cs: Children, c: nat, m: nat)
    requires GoodChildren(cs) && Has(cs, c, m)
    ensures Cuts(cs[c], m, AtLeast(Union(cs), IKey(cs[c][m])))
    ensures Cuts(cs[c], m + 1, After(Union(cs), cs[c][m]))
  {
    forall j | 0 <= j < |cs[c]| ensures cs[c][j] in Union(cs) {
      assert Has(cs, c, j);
    }
  }

  class MergingIterator {
    const children: Children
    var pos: seq<int>
    var current: int
    var direction: Direction

    ghost function All(): set<Entry> {
      Union(children)
    }

    predicate Positioned()
      reads this
    {
      current >= 0
    }

    ghost predicate Valid()
      reads this
    {
      && GoodChildren(children) && |pos| == |children|
      && (forall i :: 0 <= i < |children| ==> -1 <= pos[i] <= |children[i]|)
      && -1 <= current < |children|
      && (current >= 0 ==> 0 <= pos[current] < |children[current]|)
      && (current >= 0 ==> forall i :: 0 <= i < |children| && i != current ==> Beside(i))
    }

    /** A child that is not current stands on the far side of the current entry. */
    ghost predicate Beside(i: int)
      requires 0 <= i < |children| == |pos|
      requires 0 <= current < |children| && 0 <= pos[current] < |children[current]|
      reads this
    {
      Cuts(children[i], if direction.Forward? then pos[i] else pos[i] + 1,
           After(All(), children[current][pos[current]]))
    }

    function Current(): (r: Option<Entry>)
      requires Valid()
      reads this
      ensures r.Some? <==> Positioned()
      ensures r.Some? ==> r.value in All()
    {
      assert current >= 0 ==> Has(children, current, pos[current]);
      HeadOf(children, pos, current)
    }

    constructor (children: Children)
      requires GoodChildren(children)
      ensures Valid() && !Positioned() && this.children == children
    {
      this.children := children;
      pos := seq(|children|, _ => -1);
      current := -1;
      direction := Forward;
    }

    method FindSmallest(ghost S: set<Entry>)
      requires GoodChildren(children) && SplitAt(children, pos, 0, S) && direction.Forward?
      modifies this`current
      ensures Valid() && Least(S, Current())
    {
      var smallest := -1;
      for i := 0 to |children|
        invariant -1 <= smallest < i && (smallest >= 0 ==> 0 <= pos[smallest] < |children[smallest]|)
        invariant forall k, x :: k < i && Head(children, pos, k, x) ==>
          smallest >= 0 && !LessE(x, children[smallest][pos[smallest]])
      {
        assert Cuts(children[i], pos[i] + 0, S);
        if pos[i] < |children[i]| {
          if smallest == -1 {
            smallest := i;
          } else if LessE(children[i][pos[i]], children[smallest][pos[smallest]]) {
            smallest := i;
          }
        }
      }
      current := smallest;
      SmallestIsLeast(children, pos, S, current);
      if current >= 0 {
        forall i | 0 <= i < |children| && i != current ensures Beside(i) {
          assert Cuts(children[i], pos[i] + 0, S);
          OtherChild(children, current, pos[current], i, pos[i], S);
        }
      }
      forall i | 0 <= i < |children| ensures -1 <= pos[i] <= |children[i]| {
        assert Cuts(children[i], pos[i] + 0, S);
      }
    }

    method FindLargest(ghost S: set<Entry>)
      requires GoodChildren(children) && SplitAt(children, pos, 1, S) && direction.Reverse?
      modifies this`current
      ensures Valid() && Greatest(All() - S, Current())
    {
      var largest := -1;
      for i := |children| downto 0
        invariant -1 <= largest < |children|
        invariant (largest >= 0 ==> i <= largest && 0 <= pos[largest] < |children[largest]|)
        invariant forall k, x :: i <= k && Head(children, pos, k, x) ==>
          largest >= 0 && !LessE(children[largest][pos[largest]], x)
      {
        assert Cuts(children[i], pos[i] + 1, S);
        if pos[i] >= 0 {
          if largest == -1 {
            largest := i;
          } else if LessE(children[largest][pos[largest]], children[i][pos[i]]) {
            largest := i;
          }
        }
      }
      current := largest;
      LargestIsGreatest(children, pos, S, current);
      forall i | 0 <= i < |children| ensures -1 <= pos[i] <= |children[i]| {
        assert Cuts(children[i], pos[i] + 1, S);
      }
    }

    method SeekToFirst()
      requires Valid()
      modifies this
      ensures Valid() && Least(All(), Current())
    {
      pos := seq(|children|, _ => 0);
      direction := Forward;
      forall i, j | Has(children, i, j) ensures children[i][j] in All() {
      }
      assert forall i :: 0 <= i < |children| ==> Cuts(children[i], 0, All());
      FindSmallest(All());
    }

    method SeekToLast()
      requires Valid()
      modifies this
      ensures Valid() && Greatest(All(), Current())
    {
      pos := seq(|children|, i requires 0 <= i < |children| => |children[i]| - 1);
      direction := Reverse;
      FindLargest({});
    }

    method Seek(target: InternalKey)
      requires Valid()
      modifies this
      ensures Valid() && Least(AtLeast(All(), target), Current())
    {
      var p: seq<int> := [];
      for i := 0 to |children|
        invariant |p| == i && forall k :: 0 <= k < i ==> Cuts(children[k], p[k], AtLeast(All(), target))
      {
        SeekCuts(children, i, target);
        p := p + [SeekIndex(children[i], target)];
      }
      pos := p;
      direction := Forward;
      FindSmallest(AtLeast(All(), target));
    }

    method Next()
      requires Valid() && Positioned()
      modifies this
      ensures Valid() && Least(After(All(), old(Current()).value), Current())
    {
      ghost var cur := Current().value;
      if direction != Forward {
        FlipForward();
      }
      OwnChild(children, current, pos[current]);
      forall i | 0 <= i < |children| && i != current ensures Cuts(children[i], pos[i] + 0, After(All(), cur)) {
        assert Beside(i);
      }
      pos := pos[current := pos[current] + 1];
      FindSmallest(After(All(), cur));
    }

    /** Moves every other child behind the current entry. */
    method FlipForward()
      requires Valid() && Positioned()
      modifies this`pos, this`direction
      ensures Valid() && direction.Forward? && Current() == old(Current())
    {
      var c, m := current, pos[current];
      var key := IKey(children[c][m]);
      var p: seq<int> := [];
      AtLeastIsAfter(children, c, m);
      for i := 0 to |children|
        invariant pos == old(pos)
        invariant |p| == i && forall k :: 0 <= k < i ==> -1 <= p[k] <= |children[k]|
        invariant i > c ==> p[c] == m
        invariant forall k :: 0 <= k < i && k != c ==> Cuts(children[k], p[k], After(All(), children[c][m]))
      {
        if i != c {
          var n := SeekIndex(children[i], key);
          SeekCuts(children, i, key);
          OtherChild(children, c, m, i, n, AtLeast(All(), key));
          if n < |children[i]| && IKey(children[i][n]) == key {
            n := n + 1;
          }
          p := p + [n];
        } else {
          p := p + [m];
        }
      }
      pos := p;
      direction := Forward;
    }

    method Prev()
      requires Valid() && Positioned()
      modifies this
      ensures Valid() && Greatest(Before(All(), old(Current()).value), Current())
    {
      ghost var cur := Current().value;
      if direction != Reverse {
        FlipReverse();
      }
      ghost var S := AtLeast(All(), IKey(cur));
      AtLeastIsAfter(children, current, pos[current]);
      OwnChild(children, current, pos[current]);
      forall i | 0 <= i < |children| && i != current ensures Cuts(children[i], pos[i] + 1, S) {
        assert Beside(i);
        OtherChildBack(children, current, pos[current], i, pos[i] + 1, S);
      }
      pos := pos[current := pos[current] - 1];
      FindLargest(S);
      assert All() - S == Before(All(), cur);
    }

    /** Moves every other child in front of the current entry. */
    method FlipReverse()
      requires Valid() && Positioned()
      modifies this`pos, this`direction
      ensures Valid() && direction.Reverse? && Current() == old(Current())
    {
      var c, m := current, pos[current];
      var key := IKey(children[c][m]);
      var p: seq<int> := [];
      AtLeastIsAfter(children, c, m);
      for i := 0 to |children|
        invariant pos == old(pos)
        invariant |p| == i && forall k :: 0 <= k < i ==> -1 <= p[k] <= |children[k]|
        invariant i > c ==> p[c] == m
        invariant forall k :: 0 <= k < i && k != c ==> Cuts(children[k], p[k] + 1, After(All(), children[c][m]))
      {
        if i != c {
          var n := SeekIndex(children[i], key);
          SeekCuts(children, i, key);
          OtherChild(children, c, m, i, n, AtLeast(All(), key));
          p := p + [if n < |children[i]| then n - 1 else |children[i]| - 1];
        } else {
          p := p + [m];
        }
      }
      pos := p;
      direction := Reverse;
    }
  }
}
