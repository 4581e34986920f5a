/** Intrusive lists as sequences without repetition, and sums over them. */
module Lists {
  ghost predicate NoDup<T(!new)>(s: seq<T>) {
    forall i, j :: 0 <= i < j < |s| ==> s[i] != s[j]
  }

  /** The list with an element unlinked. */
  function Without<T(==)>(s: seq<T>, e: T): seq<T> {
    if s == [] then [] else if s[0] == e then s[1..] else [s[0]] + Without(s[1..], e)
  }

  lemma {:induction false} WithoutSplit<T>(s: seq<T>, e: T) returns (i: nat)
    requires e in s
    ensures i < |s| && s[i] == e && Without(s, e) == s[..i] + s[i + 1..]
  {
    if s[0] == e {
      i := 0;
    } else {
      var j := WithoutSplit(s[1..], e);
      i := j + 1;
      assert s[..i] == [s[0]] + s[1..][..j] && s[i + 1..] == s[1..][j + 1..];
    }
  }

  lemma {:induction false} WithoutAbsent<T>(s: seq<T>, e: T)
    requires e !in s
    ensures Without(s, e) == s
  {
    if s != [] {
      WithoutAbsent(s[1..], e);
    }
  }

  /** Unlinking takes out the element and nothing else. */
  lemma WithoutMembers<T(!new)>(s: seq<T>, e: T)
    requires NoDup(s)
    ensures NoDup(Without(s, e)) && forall x :: x in Without(s, e) <==> x in s && x != e
  {
    if e in s {
      var i := WithoutSplit(s, e);
      var r := s[..i] + s[i + 1..];
      forall x | x in s && x != e ensures x in r {
        var j :| 0 <= j < |s| && s[j] == x;
        assert x == if j < i then r[j] else r[j - 1];
      }
    } else {
      WithoutAbsent(s, e);
    }
  }

  lemma AppendMembers<T(!new)>(s: seq<T>, e: T)
    requires NoDup(s) && e !in s
    ensures NoDup(s + [e]) && forall x :: x in s + [e] <==> x in s || x == e
  {
  }

  // ---- Sums ----

  /** The sum of the weights of the ids in a list. */
  ghost function SumOf(w: seq<nat>, s: seq<nat>): nat {
    if s == [] then 0 else (if s[0] < |w| then w[s[0]] else 0) + SumOf(w, s[1..])
  }

  lemma {:induction false} SumOfJoin(w: seq<nat>, a: seq<nat>, b: seq<nat>)
    ensures SumOf(w, a + b) == SumOf(w, a) + SumOf(w, b)
  {
    if a == [] {
      assert a + b == b;
    } else {
      SumOfJoin(w, a[1..], b);
      assert (a + b)[1..] == a[1..] + b;
    }
  }

  lemma {:induction false} SumOfGrow(w: seq<nat>, x: nat, s: seq<nat>)
    requires forall i :: 0 <= i < |s| ==> s[i] < |w|
    ensures SumOf(w + [x], s) == SumOf(w, s)
  {
    if s != [] {
      SumOfGrow(w, x, s[1..]);
    }
  }

  lemma SumOfAppend(w: seq<nat>, s: seq<nat>, e: nat)
    requires e < |w|
    ensures SumOf(w, s + [e]) == SumOf(w, s) + w[e]
  {
    SumOfJoin(w, s, [e]);
    assert [e][1..] == [];
  }

  lemma SumOfWithout(w: seq<nat>, s: seq<nat>, e: nat)
    requires e < |w|
    ensures SumOf(w, Without(s, e)) == SumOf(w, s) - if e in s then w[e] else 0
  {
    if e in s {
      var i := WithoutSplit(s, e);
      SumOfJoin(w, s[..i], s[i + 1..]);
      SumOfJoin(w, s[..i], [e] + s[i + 1..]);
      SumOfJoin(w, [e], s[i + 1..]);
      assert s == s[..i] + ([e] + s[i + 1..]) && [e][1..] == [];
    } else {
      WithoutAbsent(s, e);
    }
  }
}
