/** The spin barrier of MultiFilter::CreateFilter: one caller, one worker thread per
    child filter, a flag for each worker and one shared counter. */
module FilterBarrier {
  import opened Coding

  /** Where the caller stands. */
  datatype Caller = Idle | Filling(next: nat) | Waiting | Resetting

  /** Where a worker stands: spinning on its flag, about to create, about to clear its flag,
      about to count itself. */
  datatype Worker = Spinning | Creating | Created | Cleared

  /** One CreateFilter of a child: the keys it read and the destination it wrote to, which is
      named by the number of the call and the number of the string in that call. */
  datatype Append = Append(keys: seq<Bytes>, call: nat, index: nat)

  datatype State = State(
    caller: Caller, workers: seq<Worker>, filled: seq<bool>, completed: nat,
    keys: seq<Bytes>, dst: seq<(nat, nat)>,
    calls: seq<seq<Bytes>>, appended: seq<seq<Append>>)

  ghost predicate Init(n: nat, s: State) {
    && s.caller == Idle && s.workers == seq(n, _ => Spinning) && s.filled == seq(n, _ => false) && s.completed == 0
    && |s.dst| == n && s.calls == [] && s.appended == seq(n, _ => [])
  }

  datatype Step =
    | Call(keys: seq<Bytes>) | Fill | FilledAll | SeeAll | Reset
    | See(i: nat) | Create(i: nat) | Clear(i: nat) | Count(i: nat)

  /** Every atomic step of the caller and the workers. */
  ghost predicate Next(n: nat, s: State, step: Step, t: State)
    requires Shape(n, s)
  {
    match step
    case Call(keys) => s.caller == Idle && t == s.(caller := Filling(0), keys := keys, calls := s.calls + [keys])
    case Fill =>
      && s.caller.Filling? && s.caller.next < n && s.calls != []
      && t == s.(caller := Filling(s.caller.next + 1), dst := s.dst[s.caller.next := (|s.calls| - 1, s.caller.next)],
                 filled := s.filled[s.caller.next := true])
    case FilledAll => s.caller == Filling(n) && t == s.(caller := Waiting)
    case SeeAll => s.caller == Waiting && s.completed == n && t == s.(caller := Resetting)
    case Reset => s.caller == Resetting && t == s.(caller := Idle, completed := 0)
    case See(i) => i < n && s.workers[i] == Spinning && s.filled[i] && t == s.(workers := s.workers[i := Creating])
    case Create(i) =>
      && i < n && s.workers[i] == Creating
      && t == s.(workers := s.workers[i := Created],
                 appended := s.appended[i := s.appended[i] + [Append(s.keys, s.dst[i].0, s.dst[i].1)]])
    case Clear(i) =>
      i < n && s.workers[i] == Created && t == s.(workers := s.workers[i := Cleared], filled := s.filled[i := false])
    case Count(i) =>
      i < n && s.workers[i] == Cleared && t == s.(workers := s.workers[i := Spinning], completed := s.completed + 1)
  }

  ghost predicate Shape(n: nat, s: State) {
    |s.workers| == |s.filled| == |s.dst| == |s.appended| == n
  }

  /** Calls that have returned. */
  ghost function Returned(s: State): nat {
    if s.caller == Idle || s.calls == [] then |s.calls| else |s.calls| - 1
  }

  /** What worker i has done after k calls: each call's keys once, to its own destination. */
  ghost predicate DidCalls(s: State, i: nat, k: nat)
    requires i < |s.appended| && k <= |s.calls|
  {
    |s.appended[i]| == k && forall c :: 0 <= c < k ==> s.appended[i][c] == Append(s.calls[c], c, i)
  }

  /** How far the caller has filled flags in the present call. */
  ghost function Given(n: nat, s: State): nat {
    match s.caller
    case Idle => 0
    case Filling(next) => next
    case Waiting => n
    case Resetting => n
  }

  /** Worker i has counted itself in the present call. */
  ghost predicate Counted(s: State, i: nat)
    requires i < |s.workers| && i < |s.filled| && i < |s.appended|
  {
    s.workers[i] == Spinning && !s.filled[i] && |s.appended[i]| == Returned(s) + 1
  }

  /** Worker i between two calls, or in the present one. */
  ghost predicate WorkerOk(n: nat, s: State, i: nat)
    requires Shape(n, s) && i < n
  {
    var r := Returned(s);
    if i >= Given(n, s) then s.workers[i] == Spinning && !s.filled[i] && DidCalls(s, i, r)
    else
      && r < |s.calls| && s.dst[i] == (r, i)
      && match s.workers[i]
         case Spinning => if s.filled[i] then DidCalls(s, i, r) else DidCalls(s, i, r + 1)
         case Creating => s.filled[i] && DidCalls(s, i, r)
         case Created => s.filled[i] && DidCalls(s, i, r + 1)
         case Cleared => !s.filled[i] && DidCalls(s, i, r + 1)
  }

  ghost function CountedSet(n: nat, s: State): set<nat>
    requires Shape(n, s)
  {
    set i: nat | i < n && Counted(s, i)
  }

  ghost predicate Inv(n: nat, s: State) {
    && Shape(n, s)
    && (s.caller.Filling? ==> s.caller.next <= n)
    && (s.caller != Idle ==> s.calls != [] && s.keys == s.calls[|s.calls| - 1])
    && (forall i: nat :: i < n ==> WorkerOk(n, s, i))
    && s.completed == |CountedSet(n, s)|
    && (s.caller == Resetting ==> s.completed == n)
  }

  lemma InitInv(n: nat, s: State)
    requires Init(n, s)
    ensures Inv(n, s)
  {
    assert CountedSet(n, s) == {};
  }

  /** A worker's own step changes only what concerns it. */
  lemma WorkerStep(n: nat, s: State, step: Step, t: State, i: nat)
    requires Inv(n, s) && Next(n, s, step, t)
    requires step == See(i) || step == Create(i) || step == Clear(i) || step == Count(i)
    ensures Shape(n, t) && Returned(t) == Returned(s) && Given(n, t) == Given(n, s)
    ensures forall j: nat :: j < n ==> WorkerOk(n, t, j)
    ensures CountedSet(n, t) == if step.Count? then CountedSet(n, s) + {i} else CountedSet(n, s)
    ensures i !in CountedSet(n, s)
  {
    assert WorkerOk(n, s, i);
    forall j: nat | j < n ensures WorkerOk(n, t, j) {
      assert WorkerOk(n, s, j);
    }
    forall j: nat | j < n && j != i ensures Counted(t, j) <==> Counted(s, j) {
    }
  }

  lemma CallerStep(n: nat, s: State, step: Step, t: State)
    requires Inv(n, s) && Next(n, s, step, t) && (step.Call? || step.Fill? || step.FilledAll? || step.SeeAll?)
    ensures Inv(n, t)
  {
    forall j: nat | j < n ensures WorkerOk(n, t, j) {
      assert WorkerOk(n, s, j);
    }
    forall j: nat | j < n ensures Counted(t, j) <==> Counted(s, j) {
      assert WorkerOk(n, s, j);
    }
    assert CountedSet(n, t) == CountedSet(n, s);
  }

  /** A full counter means that every worker has counted itself. */
  lemma AllCounted(n: nat, s: State, i: nat)
    requires Inv(n, s) && s.completed == n && i < n
    ensures Counted(s, i)
  {
    SubsetFull(CountedSet(n, s), Below(n));
    assert i in Below(n);
  }

  ghost function Below(n: nat): (r: set<nat>)
    ensures |r| == n && forall j: nat :: j in r <==> j < n
  {
    if n == 0 then {} else Below(n - 1) + {n - 1}
  }

  lemma SubsetFull(a: set<nat>, b: set<nat>)
    requires a <= b && |a| == |b|
    ensures a == b
  {
    assert |b - a| == 0;
  }

  lemma ResetStep(n: nat, s: State, t: State)
    requires Inv(n, s) && Next(n, s, Reset, t)
    ensures Inv(n, t)
  {
    forall j: nat | j < n ensures WorkerOk(n, t, j) {
      assert WorkerOk(n, s, j);
      AllCounted(n, s, j);
    }
    assert CountedSet(n, t) == {} by {
      forall j: nat | j < n ensures !Counted(t, j) {
        assert WorkerOk(n, t, j);
      }
    }
  }

  lemma StepKeeps(n: nat, s: State, step: Step, t: State)
    requires Inv(n, s) && Next(n, s, step, t)
    ensures Inv(n, t)
  {
    match step
    case Reset => ResetStep(n, s, t);
    case See(i) => WorkerStep(n, s, step, t, i);
    case Create(i) => WorkerStep(n, s, step, t, i);
    case Clear(i) => WorkerStep(n, s, step, t, i);
    case Count(i) =>
      WorkerStep(n, s, step, t, i);
      assert s.caller != Resetting by {
        if s.caller == Resetting {
          AllCounted(n, s, i);
        }
      }
    case _ => CallerStep(n, s, step, t);
  }

  ghost predicate Run(n: nat, states: seq<State>, steps: seq<Step>) {
    && |states| == |steps| + 1 && Init(n, states[0])
    && forall k :: 0 <= k < |steps| ==> Shape(n, states[k]) && Next(n, states[k], steps[k], states[k + 1])
  }

  lemma {:induction false} RunInv(n: nat, states: seq<State>, steps: seq<Step>, k: nat)
    requires Run(n, states, steps) && k < |states|
    ensures Inv(n, states[k])
  {
    if k == 0 {
      InitInv(n, states[0]);
    } else {
      RunInv(n, states, steps, k - 1);
      StepKeeps(n, states[k - 1], steps[k - 1], states[k]);
    }
  }

  /** In every interleaving: when a call has returned, every child has appended exactly once
      per call, from that call's keys, to its own destination of that call; and in the middle
      of a call no child is more than that call ahead. */
  lemma EachChildOncePerCall(n: nat, states: seq<State>, steps: seq<Step>, k: nat, i: nat)
    requires Run(n, states, steps) && k < |states| && i < n
    ensures Shape(n, states[k])
    ensures states[k].caller == Idle ==> DidCalls(states[k], i, |states[k].calls|)
    ensures DidCalls(states[k], i, Returned(states[k])) || DidCalls(states[k], i, |states[k].calls|)
  {
    RunInv(n, states, steps, k);
    assert WorkerOk(n, states[k], i);
  }

  /** A call is never stuck: until it returns, the caller or some worker can move. */
  lemma CallCanProceed(n: nat, s: State) returns (step: Step, t: State)
    requires Inv(n, s) && s.caller != Idle
    ensures Next(n, s, step, t)
  {
    match s.caller
    case Filling(next) =>
      step := if next < n then Fill else FilledAll;
      t := if next < n
      then s.(caller := Filling(next + 1), dst := s.dst[next := (|s.calls| - 1, next)],
              filled := s.filled[next := true])
      else s.(caller := Waiting);
    case Resetting => step, t := Reset, s.(caller := Idle, completed := 0);
    case Waiting =>
      if s.completed == n {
        step, t := SeeAll, s.(caller := Resetting);
      } else {
        var i := SomeoneLeft(n, s);
        assert WorkerOk(n, s, i);
        match s.workers[i]
        case Spinning => step, t := See(i), s.(workers := s.workers[i := Creating]);
        case Creating =>
          step := Create(i);
          t := s.(workers := s.workers[i := Created],
                  appended := s.appended[i := s.appended[i] + [Append(s.keys, s.dst[i].0, s.dst[i].1)]]);
        case Created => step, t := Clear(i), s.(workers := s.workers[i := Cleared], filled := s.filled[i := false]);
        case Cleared => step, t := Count(i), s.(workers := s.workers[i := Spinning], completed := s.completed + 1);
      }
  }

  lemma EveryoneCounted(n: nat, s: State)
    requires Shape(n, s) && forall j: nat :: j < n ==> Counted(s, j)
    ensures |CountedSet(n, s)| == n
  {
    assert CountedSet(n, s) == Below(n);
  }

  lemma SomeoneLeft(n: nat, s: State) returns (i: nat)
    requires Inv(n, s) && s.completed != n
    ensures i < n && !Counted(s, i)
  {
    if forall j: nat :: j < n ==> Counted(s, j) {
      EveryoneCounted(n, s);
      assert false;
    }
    i :| i < n && !Counted(s, i);
  }

  // ---- Calls return ----

  /** The steps that worker i has still to take in the present call. */
  ghost function WorkerLeft(n: nat, s: State, i: nat): nat
    requires Shape(n, s) && i < n
  {
    if s.caller == Idle then 0
    else if i >= Given(n, s) then 4
    else
      match s.workers[i]
      case Spinning => if s.filled[i] then 4 else 0
      case Creating => 3
      case Created => 2
      case Cleared => 1
  }

  ghost function WorkersLeft(n: nat, s: State, m: nat): nat
    requires Shape(n, s) && m <= n
  {
    if m == 0 then 0 else WorkersLeft(n, s, m - 1) + WorkerLeft(n, s, m - 1)
  }

  ghost function CallerLeft(n: nat, s: State): int {
    match s.caller
    case Idle => 0
    case Filling(next) => n - next + 3
    case Waiting => 2
    case Resetting => 1
  }

  /** The steps until the present call returns. */
  ghost function Left(n: nat, s: State): int
    requires Shape(n, s)
  {
    CallerLeft(n, s) + WorkersLeft(n, s, n)
  }

  lemma {:induction false} WorkersSame(n: nat, s: State, t: State, m: nat)
    requires Shape(n, s) && Shape(n, t) && m <= n
    requires forall i: nat :: i < m ==> WorkerLeft(n, t, i) == WorkerLeft(n, s, i)
    ensures WorkersLeft(n, t, m) == WorkersLeft(n, s, m)
  {
    if m > 0 {
      WorkersSame(n, s, t, m - 1);
    }
  }

  lemma {:induction false} OneWorkerLess(n: nat, s: State, t: State, m: nat, i: nat)
    requires Shape(n, s) && Shape(n, t) && i < m <= n && WorkerLeft(n, t, i) == WorkerLeft(n, s, i) - 1
    requires forall j: nat :: j < m && j != i ==> WorkerLeft(n, t, j) == WorkerLeft(n, s, j)
    ensures WorkersLeft(n, t, m) == WorkersLeft(n, s, m) - 1
  {
    if i == m - 1 {
      WorkersSame(n, s, t, m - 1);
    } else {
      OneWorkerLess(n, s, t, m - 1, i);
    }
  }

  lemma WorkerStepLeft(n: nat, s: State, step: Step, t: State, i: nat)
    requires Inv(n, s) && Next(n, s, step, t)
    requires step == See(i) || step == Create(i) || step == Clear(i) || step == Count(i)
    ensures Shape(n, t) && s.caller != Idle && Left(n, t) == Left(n, s) - 1
  {
    assert WorkerOk(n, s, i);
    OneWorkerLess(n, s, t, n, i);
  }

  lemma CallerStepLeft(n: nat, s: State, step: Step, t: State)
    requires Inv(n, s) && Next(n, s, step, t) && (step.Fill? || step.FilledAll? || step.SeeAll? || step.Reset?)
    ensures Shape(n, t) && s.caller != Idle && Left(n, t) == Left(n, s) - 1
  {
    forall i: nat | i < n ensures WorkerLeft(n, t, i) == WorkerLeft(n, s, i) {
      assert WorkerOk(n, s, i);
      if step.Reset? {
        AllCounted(n, s, i);
      }
    }
    WorkersSame(n, s, t, n);
  }

  /** Every step but the start of a call brings its return one step nearer, and no call starts
      before the present one has returned. */
  lemma StepLeft(n: nat, s: State, step: Step, t: State)
    requires Inv(n, s) && Next(n, s, step, t)
    ensures Shape(n, t) && (step.Call? <==> s.caller == Idle)
    ensures !step.Call? ==> Left(n, t) == Left(n, s) - 1
  {
    match step
    case Call(_) =>
    case See(i) => WorkerStepLeft(n, s, step, t, i);
    case Create(i) => WorkerStepLeft(n, s, step, t, i);
    case Clear(i) => WorkerStepLeft(n, s, step, t, i);
    case Count(i) => WorkerStepLeft(n, s, step, t, i);
    case _ => CallerStepLeft(n, s, step, t);
  }

  lemma {:induction false} AllLeft(n: nat, s: State, m: nat)
    requires Shape(n, s) && s.caller == Filling(0) && m <= n
    ensures WorkersLeft(n, s, m) == 4 * m
  {
    if m > 0 {
      AllLeft(n, s, m - 1);
    }
  }

  lemma {:induction false} NoneLeft(n: nat, s: State, m: nat)
    requires Shape(n, s) && s.caller == Idle && m <= n
    ensures WorkersLeft(n, s, m) == 0
  {
    if m > 0 {
      NoneLeft(n, s, m - 1);
    }
  }

  /** A call is in progress exactly as long as steps are left. */
  lemma BusyLeft(n: nat, s: State)
    requires Inv(n, s)
    ensures s.caller == Idle <==> Left(n, s) == 0
  {
    if s.caller == Idle {
      NoneLeft(n, s, n);
    }
  }

  /** In every interleaving, a call of n children that starts with step k is in progress for
      exactly 5 * n + 3 more steps, whoever takes them, and has then returned. */
  lemma {:induction false} CallReturns(n: nat, states: seq<State>, steps: seq<Step>, k: nat, d: nat)
    requires Run(n, states, steps) && k < |steps| && steps[k].Call? && k + 1 + d < |states| && d <= 5 * n + 3
    ensures Shape(n, states[k + 1 + d]) && Left(n, states[k + 1 + d]) == 5 * n + 3 - d
    ensures states[k + 1 + d].caller == Idle <==> d == 5 * n + 3
    ensures |states[k + 1 + d].calls| == |states[k].calls| + 1
  {
    var t := states[k + 1 + d];
    RunInv(n, states, steps, k + 1 + d);
    if d == 0 {
      AllLeft(n, t, n);
    } else {
      CallReturns(n, states, steps, k, d - 1);
      RunInv(n, states, steps, k + d);
      StepLeft(n, states[k + d], steps[k + d], t);
    }
    BusyLeft(n, t);
  }
}
