/** SkipList: one inserting writer that links a node from the bottom level up, and any number
    of readers whose pointer reads fall anywhere between its stores. */
module SkipList {
  const MAX_HEIGHT := 12

  /** A node is known by its key; no key is inserted twice. */
  datatype Ptr = Null | Head | At(key: int)

  /** next_[level] of a node. */
  datatype Link = Link(node: Ptr, level: nat)

  /** What a reader looks for: the first key from t on (Seek), the last key before t (Prev),
      the last key (SeekToLast), or the key after a node it stands on (Next, SeekToFirst). */
  datatype Goal = FirstFrom(t: int) | LastBelow(t: int) | Last | After(p: Ptr)

  /** A reader in its loop, or with its result. `known` is what was in the list when it
      started and `seen` what was in it at its last read. */
  datatype Reader =
    | Searching(goal: Goal, x: Ptr, level: nat, known: set<int>)
    | Done(goal: Goal, known: set<int>, seen: set<int>, result: Ptr)

  /** The writer, about to set next_[level] of its node, or about to publish the node there. */
  datatype Writer = Idle | Inserting(key: int, height: nat, prev: seq<Ptr>, level: nat, ownLinkSet: bool)

  /** Links that were never stored are not in `next`; `levels` are the keys reachable on each
      level, which no step reads. */
  datatype State = State(next: map<Link, Ptr>, maxHeight: nat, levels: seq<set<int>>, writer: Writer,
                         readers: map<nat, Reader>)

  // ---- Levels ----

  predicate Before(p: Ptr, k: int) {
    p.Head? || (p.At? && p.key < k)
  }

  predicate Member(S: set<int>, p: Ptr) {
    p.Head? || (p.At? && p.key in S)
  }

  /** n follows p on a level with these keys. */
  ghost predicate IsNext(S: set<int>, p: Ptr, n: Ptr) {
    match n
    case Null => forall k :: k in S ==> !Before(p, k)
    case Head => false
    case At(m) => m in S && Before(p, m) && forall k :: k in S && Before(p, k) ==> m <= k
  }

  ghost predicate LevelOk(next: map<Link, Ptr>, i: nat, S: set<int>) {
    forall p :: Member(S, p) ==> Link(p, i) in next && IsNext(S, p, next[Link(p, i)])
  }

  /** p is the last node before the key. */
  ghost predicate LastBefore(S: set<int>, key: int, p: Ptr) {
    Member(S, p) && Before(p, key) && forall k :: k in S && k < key ==> !Before(p, k)
  }

  // ---- Steps ----

  function Init(): State {
    State(map i: nat | i < MAX_HEIGHT :: Link(Head, i) := Null, 1, seq(MAX_HEIGHT, _ => {}), Idle, map[])
  }

  datatype Step =
    | StartInsert(key: int, height: nat, prev: seq<Ptr>)
    | RaiseHeight
    | SetOwnLink
    | Publish
    | StartRead(id: nat, goal: Goal, height: nat)
    | Read(id: nat)

  /** Does the reader move along the level to n? */
  predicate Goes(goal: Goal, n: Ptr) {
    n.At? && match goal
    case FirstFrom(t) => n.key < t
    case LastBelow(t) => n.key < t
    case Last => true
    case After(_) => false
  }

  ghost predicate Enabled(s: State, step: Step) {
    |s.levels| == MAX_HEIGHT && match step
    case StartInsert(key, height, prev) =>
      && s.writer.Idle? && key !in s.levels[0] && 1 <= height <= MAX_HEIGHT
      && |prev| == MAX_HEIGHT && s.maxHeight <= MAX_HEIGHT
      && (forall l :: 0 <= l < s.maxHeight ==> LastBefore(s.levels[l], key, prev[l]))
      && forall l :: s.maxHeight <= l < MAX_HEIGHT ==> prev[l] == Head
    case RaiseHeight => s.writer.Inserting? && s.writer.level == 0 && !s.writer.ownLinkSet
    case SetOwnLink =>
      && s.writer.Inserting? && !s.writer.ownLinkSet
      && s.writer.level < |s.writer.prev| && s.writer.height <= s.maxHeight
      && Link(s.writer.prev[s.writer.level], s.writer.level) in s.next
    case Publish =>
      && s.writer.Inserting? && s.writer.ownLinkSet
      && s.writer.level < |s.writer.prev| && s.writer.level < MAX_HEIGHT
    case StartRead(id, goal, height) =>
      && id !in s.readers && 1 <= height <= s.maxHeight && (goal.After? ==> height == 1 && Member(s.levels[0], goal.p))
    case Read(id) =>
      && id in s.readers && s.readers[id].Searching? && Link(s.readers[id].x, s.readers[id].level) in s.next
  }

  /** One turn of the loop in FindGreaterOrEqual, FindLessThan or FindLast. */
  function ReadOnce(s: State, r: Reader): Reader
    requires |s.levels| == MAX_HEIGHT && r.Searching? && Link(r.x, r.level) in s.next
  {
    var n := s.next[Link(r.x, r.level)];
    if Goes(r.goal, n) then r.(x := n)
    else if r.level > 0 then r.(level := r.level - 1)
    else Done(r.goal, r.known, s.levels[0], if r.goal.FirstFrom? || r.goal.After? then n else r.x)
  }

  function Apply(s: State, step: Step): State
    requires Enabled(s, step)
  {
    match step
    case StartInsert(key, height, prev) => s.(writer := Inserting(key, height, prev, 0, false))
    case RaiseHeight => if s.writer.height > s.maxHeight then s.(maxHeight := s.writer.height) else s
    case SetOwnLink =>
      var w := s.writer;
      s.(next := s.next[Link(At(w.key), w.level) := s.next[Link(w.prev[w.level], w.level)]],
         writer := w.(ownLinkSet := true))
    case Publish =>
      var w := s.writer;
      s.(next := s.next[Link(w.prev[w.level], w.level) := At(w.key)],
         levels := s.levels[w.level := s.levels[w.level] + {w.key}],
         writer := if w.level + 1 < w.height then w.(level := w.level + 1, ownLinkSet := false) else Idle)
    case StartRead(id, goal, height) =>
      s.(readers := s.readers[id := Searching(goal, if goal.After? then goal.p else Head, height - 1, s.levels[0])])
    case Read(id) => s.(readers := s.readers[id := ReadOnce(s, s.readers[id])])
  }

  // ---- The invariant ----

  /** All levels are linked in order, and each is a sublist of those below. */
  ghost predicate ListOk(next: map<Link, Ptr>, maxHeight: nat, levels: seq<set<int>>) {
    && |levels| == MAX_HEIGHT && 1 <= maxHeight <= MAX_HEIGHT
    && (forall i :: 0 <= i < MAX_HEIGHT ==> LevelOk(next, i, levels[i]))
    && (forall i, j :: 0 <= i <= j < MAX_HEIGHT ==> levels[j] <= levels[i])
    && forall i :: maxHeight <= i < MAX_HEIGHT ==> levels[i] == {}
  }

  /** The writer has published its node on exactly the levels below its own. */
  ghost predicate WriterOk(next: map<Link, Ptr>, maxHeight: nat, levels: seq<set<int>>, w: Writer)
    requires |levels| == MAX_HEIGHT
  {
    w.Inserting? ==>
      && w.level < w.height <= MAX_HEIGHT && |w.prev| == MAX_HEIGHT
      && (w.level > 0 || w.ownLinkSet ==> w.height <= maxHeight)
      && (forall l :: 0 <= l < w.level ==> w.key in levels[l])
      && (forall l :: w.level <= l < MAX_HEIGHT ==> w.key !in levels[l])
      && (forall l :: w.level <= l < w.height ==> LastBefore(levels[l], w.key, w.prev[l]))
      && (w.ownLinkSet ==> OwnLinkOk(next, w.prev[w.level], w.key, w.level))
  }

  ghost predicate OwnLinkOk(next: map<Link, Ptr>, prev: Ptr, key: int, i: nat) {
    Link(prev, i) in next && Link(At(key), i) in next && next[Link(At(key), i)] == next[Link(prev, i)]
  }

  /** The answer, for a list of these keys. */
  ghost predicate Right(goal: Goal, seen: set<int>, r: Ptr) {
    match goal
    case FirstFrom(t) =>
      (match r
       case Null => forall k :: k in seen ==> k < t
       case Head => false
       case At(m) => m in seen && t <= m && forall k :: k in seen && t <= k ==> m <= k)
    case LastBelow(t) => LastBefore(seen, t, r)
    case Last => Member(seen, r) && forall k :: k in seen ==> !Before(r, k)
    case After(p) => IsNext(seen, p, r)
  }

  ghost predicate ReaderOk(maxHeight: nat, levels: seq<set<int>>, r: Reader)
    requires |levels| == MAX_HEIGHT
  {
    match r
    case Searching(goal, x, level, known) =>
      && level < MAX_HEIGHT && Member(levels[level], x) && known <= levels[0]
      && (goal.FirstFrom? || goal.LastBelow? ==> Before(x, goal.t))
      && (goal.After? ==> x == goal.p && level == 0)
    case Done(goal, known, seen, result) => known <= seen <= levels[0] && Right(goal, seen, result)
  }

  ghost predicate Inv(s: State) {
    && ListOk(s.next, s.maxHeight, s.levels)
    && WriterOk(s.next, s.maxHeight, s.levels, s.writer)
    && forall id :: id in s.readers ==> ReaderOk(s.maxHeight, s.levels, s.readers[id])
  }

  // ---- Publishing a node ----

  lemma PublishLevel(next: map<Link, Ptr>, i: nat, S: set<int>, prev: Ptr, key: int)
    requires LevelOk(next, i, S) && key !in S && LastBefore(S, key, prev) && OwnLinkOk(next, prev, key, i)
    ensures LevelOk(next[Link(prev, i) := At(key)], i, S + {key})
  {
    var next' := next[Link(prev, i) := At(key)];
    forall p | Member(S + {key}, p) ensures Link(p, i) in next' && IsNext(S + {key}, p, next'[Link(p, i)]) {
      if p == At(key) {
        AfterNew(S, prev, key, next[Link(prev, i)]);
      } else {
        assert Member(S, p);
        if p != prev {
          OthersKeep(S, prev, key, p, next[Link(p, i)]);
        }
      }
    }
  }

  lemma AfterNew(S: set<int>, prev: Ptr, key: int, n: Ptr)
    requires key !in S && LastBefore(S, key, prev) && IsNext(S, prev, n)
    ensures IsNext(S + {key}, At(key), n)
  {
  }

  lemma OthersKeep(S: set<int>, prev: Ptr, key: int, p: Ptr, n: Ptr)
    requires key !in S && LastBefore(S, key, prev) && Member(S, p) && p != prev && IsNext(S, p, n)
    ensures IsNext(S + {key}, p, n)
  {
    if Before(p, key) {
      assert prev.At? && Before(p, prev.key);
    }
  }

  lemma OtherLevels(next: map<Link, Ptr>, l: Link, n: Ptr, i: nat, S: set<int>)
    requires LevelOk(next, i, S) && (l.level != i || !Member(S, l.node))
    ensures LevelOk(next[l := n], i, S)
  {
  }

  lemma PublishKeepsList(s: State)
    requires Inv(s) && Enabled(s, Publish)
    ensures var s' := Apply(s, Publish); ListOk(s'.next, s'.maxHeight, s'.levels)
  {
    var s', w := Apply(s, Publish), s.writer;
    forall i | 0 <= i < MAX_HEIGHT ensures LevelOk(s'.next, i, s'.levels[i]) {
      if i == w.level {
        PublishLevel(s.next, i, s.levels[i], w.prev[i], w.key);
      } else {
        OtherLevels(s.next, Link(w.prev[w.level], w.level), At(w.key), i, s.levels[i]);
      }
    }
  }

  lemma PublishKeepsWriter(s: State)
    requires Inv(s) && Enabled(s, Publish)
    ensures var s' := Apply(s, Publish);
      |s'.levels| == MAX_HEIGHT && WriterOk(s'.next, s'.maxHeight, s'.levels, s'.writer)
  {
  }

  lemma SetOwnLinkKeepsList(s: State)
    requires Inv(s) && Enabled(s, SetOwnLink)
    ensures var s' := Apply(s, SetOwnLink); ListOk(s'.next, s'.maxHeight, s'.levels)
  {
    var w := s.writer;
    forall i | 0 <= i < MAX_HEIGHT ensures LevelOk(Apply(s, SetOwnLink).next, i, s.levels[i]) {
      OtherLevels(s.next, Link(At(w.key), w.level), s.next[Link(w.prev[w.level], w.level)], i, s.levels[i]);
    }
  }

  /** Lists only grow, so readers stay where they were. */
  lemma ReaderStays(maxHeight: nat, levels: seq<set<int>>, levels': seq<set<int>>, r: Reader)
    requires |levels| == |levels'| == MAX_HEIGHT && ReaderOk(maxHeight, levels, r)
    requires forall i :: 0 <= i < MAX_HEIGHT ==> levels[i] <= levels'[i]
    ensures ReaderOk(maxHeight, levels', r)
  {
  }

  // ---- Reading ----

  /** A reader only follows links that were stored. */
  lemma LinkStored(s: State, r: Reader)
    requires ListOk(s.next, s.maxHeight, s.levels) && r.Searching? && ReaderOk(s.maxHeight, s.levels, r)
    ensures Link(r.x, r.level) in s.next && IsNext(s.levels[r.level], r.x, s.next[Link(r.x, r.level)])
  {
  }

  lemma ReadKeeps(s: State, r: Reader)
    requires ListOk(s.next, s.maxHeight, s.levels) && r.Searching? && ReaderOk(s.maxHeight, s.levels, r)
    requires Link(r.x, r.level) in s.next
    ensures ReaderOk(s.maxHeight, s.levels, ReadOnce(s, r))
  {
    LinkStored(s, r);
    var n := s.next[Link(r.x, r.level)];
    if !Goes(r.goal, n) && r.level > 0 {
      assert s.levels[r.level] <= s.levels[r.level - 1];
    }
  }

  // ---- Runs ----

  lemma InitInv()
    ensures Inv(Init())
  {
  }

  lemma StepKeeps(s: State, step: Step)
    requires Inv(s) && Enabled(s, step)
    ensures Inv(Apply(s, step))
  {
    var s' := Apply(s, step);
    match step
    case StartInsert(key, height, prev) =>
      forall l | 0 <= l < MAX_HEIGHT ensures key !in s.levels[l] {
        assert s.levels[l] <= s.levels[0];
      }
    case RaiseHeight =>
      RaiseKeeps(s);
    case SetOwnLink =>
      SetOwnLinkKeepsList(s);
    case Publish =>
      PublishKeepsList(s);
      PublishKeepsWriter(s);
      forall id | id in s.readers ensures ReaderOk(s'.maxHeight, s'.levels, s'.readers[id]) {
        ReaderStays(s.maxHeight, s.levels, s'.levels, s.readers[id]);
      }
    case StartRead(id, goal, height) =>
    case Read(id) =>
      ReadKeeps(s, s.readers[id]);
  }

  lemma RaiseKeeps(s: State)
    requires Inv(s) && Enabled(s, RaiseHeight)
    ensures Inv(Apply(s, RaiseHeight))
  {
  }

  /** The states a run of these steps passes through. */
  ghost predicate Run(states: seq<State>, steps: seq<Step>) {
    && |states| == |steps| + 1 && states[0] == Init()
    && forall i :: 0 <= i < |steps| ==> Enabled(states[i], steps[i]) && states[i + 1] == Apply(states[i], steps[i])
  }

  lemma {:induction false} RunInv(states: seq<State>, steps: seq<Step>, n: nat)
    requires Run(states, steps) && n < |states|
    ensures Inv(states[n])
  {
    if n == 0 {
      InitInv();
    } else {
      RunInv(states, steps, n - 1);
      StepKeeps(states[n - 1], steps[n - 1]);
      assert states[n - 1 + 1] == Apply(states[n - 1], steps[n - 1]);
    }
  }

  /** In every run, a finished seek is at or after its target and misses no key that was in
      the list when it started. */
  lemma SeekMissesNothing(states: seq<State>, steps: seq<Step>, n: nat, id: nat, k: int)
    requires Run(states, steps) && n < |states|
    requires id in states[n].readers && states[n].readers[id].Done? && states[n].readers[id].goal.FirstFrom?
    ensures var r := states[n].readers[id]; r.result.Null? || (r.result.At? && r.result.key >= r.goal.t)
    ensures var r := states[n].readers[id];
      k in r.known && k >= r.goal.t ==> r.result.At? && r.goal.t <= r.result.key <= k
  {
    RunInv(states, steps, n);
  }

  /** In every run, every finished search gave the answer for the list as it was at its last
      read, and that list held all keys that were there when the search started. */
  lemma ReadsAreAtomic(states: seq<State>, steps: seq<Step>, n: nat, id: nat)
    requires Run(states, steps) && n < |states| && id in states[n].readers && states[n].readers[id].Done?
    ensures var r := states[n].readers[id]; Right(r.goal, r.seen, r.result) && r.known <= r.seen
  {
    RunInv(states, steps, n);
  }

  /** In every run no reader is ever about to follow a link that was never stored, and the
      writer is never stuck. */
  lemma NoWildRead(states: seq<State>, steps: seq<Step>, n: nat)
    requires Run(states, steps) && n < |states|
    ensures forall id :: id in states[n].readers && states[n].readers[id].Searching? ==> Enabled(states[n], Read(id))
    ensures var s := states[n];
      s.writer.Inserting? ==>
        Enabled(s, SetOwnLink) || Enabled(s, Publish) || (Enabled(s, RaiseHeight) && s.maxHeight < s.writer.height)
  {
    RunInv(states, steps, n);
    var s := states[n];
    forall id | id in s.readers && s.readers[id].Searching? ensures Enabled(s, Read(id)) {
      LinkStored(s, s.readers[id]);
    }
    if s.writer.Inserting? {
      assert LevelOk(s.next, s.writer.level, s.levels[s.writer.level]);
    }
  }

  /** The last publishing step of an insertion: the key is on exactly the levels below its
      height, and every level is still linked in order and a sublist of the one below. */
  lemma InsertLands(s: State)
    requires Inv(s) && Enabled(s, Publish) && s.writer.level + 1 == s.writer.height
    ensures var s', w := Apply(s, Publish), s.writer;
      && s'.writer.Idle? && ListOk(s'.next, s'.maxHeight, s'.levels)
      && forall l :: 0 <= l < MAX_HEIGHT ==> (w.key in s'.levels[l] <==> l < w.height)
  {
    PublishKeepsList(s);
  }

  // ---- The search of the writer, and a scan ----

  ghost function Rest(S: set<int>, x: Ptr): set<int> {
    set k | k in S && Before(x, k)
  }

  lemma RestShrinks(S: set<int>, T: set<int>, x: Ptr, n: Ptr)
    requires IsNext(T, x, n) && n.At? && T <= S
    ensures Rest(S, n) < Rest(S, x)
  {
    assert n.key in Rest(S, x) && n.key !in Rest(S, n);
  }

  /** FindGreaterOrEqual with the predecessors that Insert needs. */
  method FindGreaterOrEqual(s: State, key: int) returns (r: Ptr, prev: seq<Ptr>)
    requires ListOk(s.next, s.maxHeight, s.levels)
    ensures Right(FirstFrom(key), s.levels[0], r)
    ensures |prev| == MAX_HEIGHT && forall l :: 0 <= l < s.maxHeight ==> LastBefore(s.levels[l], key, prev[l])
    ensures forall l :: s.maxHeight <= l < MAX_HEIGHT ==> prev[l] == Head
  {
    prev := seq(MAX_HEIGHT, _ => Head);
    var x, level := Head, s.maxHeight - 1;
    while true
      invariant 0 <= level < s.maxHeight && |prev| == MAX_HEIGHT && Member(s.levels[level], x) && Before(x, key)
      invariant forall l :: level < l < s.maxHeight ==> LastBefore(s.levels[l], key, prev[l])
      invariant forall l :: s.maxHeight <= l < MAX_HEIGHT ==> prev[l] == Head
      decreases level, Rest(s.levels[0], x)
    {
      assert LevelOk(s.next, level, s.levels[level]);
      var next := s.next[Link(x, level)];
      if next.At? && next.key < key {
        RestShrinks(s.levels[0], s.levels[level], x, next);
        x := next;
      } else {
        prev := prev[level := x];
        if level == 0 {
          return next, prev;
        }
        assert s.levels[level] <= s.levels[level - 1];
        level := level - 1;
      }
    }
  }

  /** SeekToFirst and Next to the end: all keys, once each and in order. */
  method Scan(s: State) returns (keys: seq<int>)
    requires ListOk(s.next, s.maxHeight, s.levels)
    ensures forall i, j :: 0 <= i < j < |keys| ==> keys[i] < keys[j]
    ensures forall k :: k in keys <==> k in s.levels[0]
  {
    keys := [];
    var x: Ptr := Head;
    assert LevelOk(s.next, 0, s.levels[0]);
    var n := s.next[Link(x, 0)];
    while n.At?
      invariant Member(s.levels[0], x) && IsNext(s.levels[0], x, n)
      invariant forall i, j :: 0 <= i < j < |keys| ==> keys[i] < keys[j]
      invariant forall i :: 0 <= i < |keys| ==> !Before(x, keys[i])
      invariant forall k :: k in keys <==> k in s.levels[0] && !Before(x, k)
      decreases Rest(s.levels[0], x)
    {
      RestShrinks(s.levels[0], s.levels[0], x, n);
      keys := keys + [n.key];
      x := n;
      n := s.next[Link(x, 0)];
    }
  }
}
