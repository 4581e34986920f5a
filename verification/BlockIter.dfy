/** Block::Iter: walking a prefix-compressed block through its restart points. */
module BlockIter {
  import opened Wrappers
  import opened Coding
  import opened Keys

  datatype KV = KV(key: Bytes, value: Bytes)

  /** What one entry holds in the block: how much of the previous key it shares, the rest of
      its key, its value, and where the next entry begins. */
  datatype Raw = Raw(shared: nat, delta: Bytes, value: Bytes, next: nat)

  /** A block: its pairs, the shared length and offset of every entry (with the end of the last
      one), and the entries that are restart points. */
  datatype Layout = Layout(pairs: seq<KV>, shared: seq<nat>, offsets: seq<nat>, restarts: seq<nat>)

  ghost predicate GoodLayout(b: Layout) {
    && |b.shared| == |b.pairs| && |b.offsets| == |b.pairs| + 1 && b.offsets[0] == 0
    && (forall i, j :: 0 <= i < j <= |b.pairs| ==> b.offsets[i] < b.offsets[j])
    && (forall i :: 0 <= i < |b.pairs| ==> b.shared[i] <= |b.pairs[i].key|)
    && (forall i :: 0 <= i < |b.pairs| ==> SharesWith(b, i))
    && |b.restarts| > 0 && b.restarts[0] == 0
    && (forall j, k :: 0 <= j < k < |b.restarts| ==> b.restarts[j] < b.restarts[k])
    && (forall k :: 0 <= k < |b.restarts| ==> b.restarts[k] <= |b.pairs|)
    && forall k :: 0 <= k < |b.restarts| ==> RestartOk(b, k)
  }

  /** Entry i can be rebuilt from the key before it. */
  ghost predicate SharesWith(b: Layout, i: nat)
    requires i < |b.pairs| == |b.shared|
  {
    && b.shared[i] <= |b.pairs[i].key|
    && if i == 0 then b.shared[i] == 0
       else b.shared[i] <= |b.pairs[i - 1].key| && b.pairs[i - 1].key[..b.shared[i]] == b.pairs[i].key[..b.shared[i]]
  }

  ghost predicate RestartOk(b: Layout, k: nat)
    requires k < |b.restarts| && |b.pairs| == |b.shared|
  {
    if b.pairs == [] then b.restarts[k] == 0 else b.restarts[k] < |b.pairs| && b.shared[b.restarts[k]] == 0
  }

  /** Entry i as it stands in the block. */
  function RawAt(b: Layout, i: nat): Raw
    requires i < |b.pairs| == |b.shared| && b.shared[i] <= |b.pairs[i].key| && |b.offsets| == |b.pairs| + 1
  {
    Raw(b.shared[i], b.pairs[i].key[b.shared[i]..], b.pairs[i].value, b.offsets[i + 1])
  }

  /** The offset of restart point k. */
  ghost function Point(b: Layout, k: nat): nat
    requires GoodLayout(b) && k < |b.restarts|
  {
    b.offsets[b.restarts[k]]
  }

  ghost function RestartKey(b: Layout, k: nat): Bytes
    requires GoodLayout(b) && k < |b.restarts| && b.pairs != []
  {
    assert RestartOk(b, k);
    b.pairs[b.restarts[k]].key
  }

  /** The bytes of the block decode to this layout. */
  ghost predicate Holds(b: Layout, entryAt: nat -> Option<Raw>, restartPoint: nat -> nat) {
    && GoodLayout(b)
    && (forall i {:trigger RawAt(b, i)} :: 0 <= i < |b.pairs| ==> entryAt(b.offsets[i]) == Some(RawAt(b, i)))
    && forall k :: 0 <= k < |b.restarts| ==> restartPoint(k) == Point(b, k)
  }

  ghost predicate SortedPairs(less: KeyLess, pairs: seq<KV>) {
    forall i, j :: 0 <= i < j < |pairs| ==> less(pairs[i].key, pairs[j].key)
  }

  /** i is the first pair not below the target. */
  ghost predicate IsFirstFrom(less: KeyLess, pairs: seq<KV>, target: Bytes, i: nat) {
    && i <= |pairs| && (forall k :: 0 <= k < i ==> less(pairs[k].key, target))
    && (i < |pairs| ==> !less(pairs[i].key, target))
  }

  lemma PrefixJoin(k: Bytes, last: Bytes, n: nat)
    requires n <= |k| && n <= |last| && last[..n] == k[..n]
    ensures last[..n] + k[n..] == k
  {
  }

  class Iter {
    ghost const b: Layout
    const less: KeyLess
    const entryAt: nat -> Option<Raw>
    const restartPoint: nat -> nat
    const numRestarts: nat
    const end: nat
    var current: nat
    var restartIndex: nat
    var key: Bytes
    var value: Bytes
    var next: nat
    /** The entry the iterator stands at; |b.pairs| when it is not valid. */
    ghost var pos: nat

    ghost predicate Fixed() {
      Holds(b, entryAt, restartPoint) && numRestarts == |b.restarts| && end == b.offsets[|b.pairs|]
    }

    ghost predicate Valid()
      reads this
    {
      && Fixed() && pos <= |b.pairs| && current == b.offsets[pos]
      && (pos < |b.pairs| ==> At(pos))
    }

    ghost predicate At(i: nat)
      requires Fixed() && i < |b.pairs|
      reads this
    {
      && current == b.offsets[i] && key == b.pairs[i].key && value == b.pairs[i].value && next == b.offsets[i + 1]
      && restartIndex < numRestarts && Point(b, restartIndex) <= current
      && (restartIndex + 1 < numRestarts ==> current <= Point(b, restartIndex + 1))
    }

    /** The iterator is about to parse entry i. */
    ghost predicate Ready(i: nat)
      requires Fixed()
      reads this
    {
      && i <= |b.pairs| && next == b.offsets[i]
      && (i < |b.pairs| ==> b.shared[i] <= |key| && key[..b.shared[i]] == b.pairs[i].key[..b.shared[i]])
      && restartIndex < numRestarts && Point(b, restartIndex) <= b.offsets[i]
    }

    predicate IsValid()
      requires Valid()
      reads this
      ensures IsValid() <==> pos < |b.pairs|
    {
      current < end
    }

    method SeekToRestartPoint(index: nat)
      requires Fixed() && index < numRestarts
      modifies this
      ensures Ready(b.restarts[index]) && current == old(current) && restartIndex == index && pos == old(pos)
    {
      key := [];
      restartIndex := index;
      value := [];
      next := restartPoint(index);
      assert RestartOk(b, index);
    }

    /** The loop at the end of ParseNextKey. */
    method AdvanceRestart()
      requires Fixed() && restartIndex < numRestarts && Point(b, restartIndex) <= current
      modifies this`restartIndex
      ensures restartIndex < numRestarts && Point(b, restartIndex) <= current
      ensures restartIndex + 1 < numRestarts ==> current <= Point(b, restartIndex + 1)
    {
      while restartIndex + 1 < numRestarts && restartPoint(restartIndex + 1) < current
        invariant restartIndex < numRestarts && Point(b, restartIndex) <= current
        decreases numRestarts - restartIndex
      {
        restartIndex := restartIndex + 1;
      }
    }

    method ParseNextKey(ghost i: nat) returns (ok: bool)
      requires Fixed() && Ready(i)
      modifies this
      ensures Valid() && pos == i && (ok <==> i < |b.pairs|)
    {
      current := next;
      pos := i;
      if current >= end {
        current := end;
        restartIndex := numRestarts;
        return false;
      }
      var raw := entryAt(current);
      assert raw == Some(RawAt(b, i));
      if raw.None? || |key| < raw.value.shared {
        assert false;
      }
      PrefixJoin(b.pairs[i].key, key, b.shared[i]);
      key := key[..raw.value.shared] + raw.value.delta;
      value := raw.value.value;
      next := raw.value.next;
      AdvanceRestart();
      ok := true;
    }

    /** Parses the entry after the current one. */
    method StepOn() returns (ok: bool)
      requires Valid() && pos < |b.pairs|
      modifies this
      ensures Valid() && pos == old(pos) + 1 && (ok <==> pos < |b.pairs|)
    {
      assert ReadyAfter(pos);
      ok := ParseNextKey(pos + 1);
    }

    method Next()
      requires Valid() && pos < |b.pairs|
      modifies this
      ensures Valid() && pos == old(pos) + 1
    {
      var ok := StepOn();
    }

    /** An iterator at entry i is ready for entry i + 1. */
    ghost predicate ReadyAfter(i: nat)
      requires Fixed()
      reads this
      ensures i < |b.pairs| && At(i) ==> ReadyAfter(i)
    {
      assert i + 1 < |b.pairs| ==> SharesWith(b, i + 1);
      Ready(i + 1)
    }

    method SeekToFirst()
      requires Fixed()
      modifies this
      ensures Valid() && pos == 0
    {
      SeekToRestartPoint(0);
      var ok := ParseNextKey(0);
    }

    method SeekToLast()
      requires Fixed()
      modifies this
      ensures Valid() && pos == if b.pairs == [] then 0 else |b.pairs| - 1
    {
      SeekToRestartPoint(numRestarts - 1);
      assert RestartOk(b, numRestarts - 1);
      var ok := ParseNextKey(b.restarts[numRestarts - 1]);
      while ok && next < end
        invariant Valid() && (ok <==> pos < |b.pairs|) && (b.pairs != [] ==> ok)
        decreases |b.pairs| - pos
      {
        ok := StepOn();
      }
    }

    /** A walk from the first entry to the end meets every pair in order. */
    method Collect() returns (out: seq<KV>)
      requires Fixed()
      modifies this
      ensures out == b.pairs
    {
      SeekToFirst();
      out := [];
      while IsValid()
        invariant Valid() && pos == |out| && out == b.pairs[..pos]
        decreases |b.pairs| - pos
      {
        out := out + [KV(key, value)];
        Next();
      }
    }

    /** Finds the last restart point before an offset; false if there is none. */
    method FindRestartBefore(original: nat) returns (found: bool)
      requires Fixed() && restartIndex < numRestarts
      modifies this`restartIndex
      ensures restartIndex < numRestarts
      ensures found ==> Point(b, restartIndex) < original
      ensures !found ==> original == 0
    {
      while restartPoint(restartIndex) >= original
        invariant restartIndex < numRestarts
        decreases restartIndex
      {
        if restartIndex == 0 {
          return false;
        }
        restartIndex := restartIndex - 1;
      }
      return true;
    }

    /** Parses entries from the restart point on, up to the one that ends at an offset. */
    method ScanTo(original: nat, ghost was: nat)
      requires Fixed() && restartIndex < numRestarts && was < |b.pairs| && original == b.offsets[was]
      requires Point(b, restartIndex) < original
      modifies this
      ensures Valid() && pos + 1 == was
    {
      SeekToRestartPoint(restartIndex);
      var ok := ParseNextKey(b.restarts[restartIndex]);
      while ok && next < original
        invariant Valid() && pos < was && ok
        decreases was - pos
      {
        ok := StepOn();
      }
    }

    /** Back to the entry before, by way of the last restart point before it. */
    method Prev()
      requires Valid() && pos < |b.pairs|
      modifies this
      ensures Valid() && pos == if old(pos) == 0 then |b.pairs| else old(pos) - 1
    {
      var original := current;
      ghost var was := pos;
      var found := FindRestartBefore(original);
      if !found {
        current := end;
        restartIndex := numRestarts;
        pos := |b.pairs|;
        return;
      }
      ScanTo(original, was);
    }

    /** Whether the key of restart point k is below the target; None if it does not decode. */
    method RestartKeyBelow(k: nat, target: Bytes) returns (r: Option<bool>)
      requires Fixed() && k < numRestarts && b.pairs != []
      ensures r == Some(less(RestartKey(b, k), target))
    {
      assert RestartOk(b, k);
      ghost var e := RawAt(b, b.restarts[k]);
      var raw := entryAt(restartPoint(k));
      if raw.None? || raw.value.shared != 0 {
        assert false;
        return None;
      }
      assert e.delta == RestartKey(b, k);
      return Some(less(raw.value.delta, target));
    }

    /** Binary search for the last restart point whose key is below the target. */
    method FindRestart(target: Bytes) returns (left: nat)
      requires Fixed() && IsOrder(less) && SortedPairs(less, b.pairs)
      ensures left < numRestarts
      ensures forall i :: 0 <= i < b.restarts[left] ==> less(b.pairs[i].key, target)
    {
      left := 0;
      var right := numRestarts - 1;
      while left < right
        invariant 0 <= left <= right < numRestarts
        invariant left == 0 || (b.pairs != [] && less(RestartKey(b, left), target))
      {
        var mid := (left + right + 1) / 2;
        assert RestartOk(b, mid) && RestartOk(b, 0);
        assert b.restarts[0] < b.restarts[mid];
        var below := RestartKeyBelow(mid, target);
        if below.value {
          left := mid;
        } else {
          right := mid - 1;
        }
      }
      assert RestartOk(b, left);
    }

    /** The linear scan that ends a seek. */
    method ScanFrom(start: bool, target: Bytes)
      requires Valid() && (start <==> pos < |b.pairs|) && forall k :: 0 <= k < pos ==> less(b.pairs[k].key, target)
      modifies this
      ensures Valid() && IsFirstFrom(less, b.pairs, target, pos)
    {
      var ok := start;
      while ok && less(key, target)
        invariant Valid() && (ok <==> pos < |b.pairs|)
        invariant forall k :: 0 <= k < pos ==> less(b.pairs[k].key, target)
        decreases |b.pairs| - pos
      {
        ok := StepOn();
      }
    }

    method Seek(target: Bytes)
      requires Fixed() && IsOrder(less) && SortedPairs(less, b.pairs)
      modifies this
      ensures Valid() && IsFirstFrom(less, b.pairs, target, pos)
    {
      var left := FindRestart(target);
      SeekToRestartPoint(left);
      var ok := ParseNextKey(b.restarts[left]);
      ScanFrom(ok, target);
    }

    constructor (ghost b: Layout, less: KeyLess, entryAt: nat -> Option<Raw>, restartPoint: nat -> nat,
                 numRestarts: nat, end: nat)
      requires Holds(b, entryAt, restartPoint) && numRestarts == |b.restarts| && end == b.offsets[|b.pairs|]
      ensures Valid() && this.b == b && pos == |b.pairs| && this.less == less
    {
      this.b := b;
      this.less, this.entryAt, this.restartPoint, this.numRestarts, this.end := less, entryAt, restartPoint,
        numRestarts, end;
      current, restartIndex, key, value, next := end, numRestarts, [], [], end;
      pos := |b.pairs|;
    }
  }
}
