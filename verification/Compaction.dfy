/** The compaction loop: which entries of the merged input survive, how the
    survivors are cut into output files, and why every drop is justified. */
module Compactions {
  import opened Wrappers
  import opened DbFormat
  import opened VersionFiles

  /** No file two or more levels below `level` has k in its range. */
  ghost predicate BaseLevel(levels: seq<Level>, level: nat, k: UserKey) {
    forall lvl, i :: level + 2 <= lvl < |levels| && 0 <= i < |levels[lvl]| && levels[lvl][i].entries != []
      ==> !Covers(levels[lvl][i], k)
  }

  /** At ss and later, readers of the key see c and not e: it is newer, and visible at ss. */
  ghost predicate Hides(c: Entry, e: Entry, ss: nat) {
    && c.key == e.key && c.sn <= ss
    && (c.sn > e.sn || (c.sn == e.sn && c.kind.Value? && e.kind.Deletion?))
  }

  /** An input entry that no other hides from readers at ss, and that is not a marker with nothing
      deeper to hide. */
  ghost predicate MustStay(levels: seq<Level>, level: nat, input: seq<Entry>, ss: nat, e: Entry) {
    && e in input && !(exists c :: c in input && Hides(c, e, ss))
    && !(e.kind.Deletion? && e.sn <= ss && BaseLevel(levels, level, e.key))
  }

  /** Input entry i is dropped: hidden by the entry before it, or an obsolete
      deletion marker. */
  ghost predicate Dropped(levels: seq<Level>, level: nat, input: seq<Entry>, ss: nat, i: nat)
    requires i < |input|
  {
    || (i > 0 && input[i - 1].key == input[i].key && input[i - 1].sn <= ss)
    || (input[i].kind.Deletion? && input[i].sn <= ss && BaseLevel(levels, level, input[i].key))
  }

  ghost function Survivors(levels: seq<Level>, level: nat, input: seq<Entry>, ss: nat): seq<Entry> {
    if input == [] then []
    else
      var n := |input| - 1;
      Survivors(levels, level, input[..n], ss) + (if Dropped(levels, level, input, ss, n) then [] else [input[n]])
  }

  function Flatten<T>(parts: seq<seq<T>>): seq<T> {
    if parts == [] then [] else Flatten(parts[..|parts| - 1]) + parts[|parts| - 1]
  }

  lemma FlattenAppend<T>(parts: seq<seq<T>>, last: seq<T>)
    ensures Flatten(parts + [last]) == Flatten(parts) + last
  {
    assert (parts + [last])[..|parts|] == parts;
  }

  lemma SurvivorsStep(levels: seq<Level>, level: nat, input: seq<Entry>, ss: nat, i: nat)
    requires i < |input|
    ensures Survivors(levels, level, input[..i + 1], ss) ==
            Survivors(levels, level, input[..i], ss) + (if Dropped(levels, level, input, ss, i) then [] else [input[i]])
  {
    assert input[..i + 1][..i] == input[..i];
  }

  // ---- Where the outputs are cut ----

  /** The entries of a file stand at these places of the input. */
  ghost predicate StandsAt(input: seq<Entry>, file: seq<Entry>, at: seq<nat>) {
    && |file| == |at| && (forall x :: 0 <= x < |at| ==> at[x] < |input| && file[x] == input[at[x]])
    && forall x, y :: 0 <= x < y < |at| ==> at[x] < at[y]
  }

  /** A cut is called for between places i and j: a file was full after i, or had to stop before
      an entry from there up to j. */
  ghost predicate CutCalled(stopBefore: seq<bool>, fullAfter: seq<bool>, i: nat, j: nat)
    requires |stopBefore| == |fullAfter|
  {
    i < |fullAfter| && (fullAfter[i] || exists k :: i < k <= j && k < |stopBefore| && stopBefore[k])
  }

  /** No cut was called for inside a file. */
  ghost predicate Unbroken(stopBefore: seq<bool>, fullAfter: seq<bool>, at: seq<nat>)
    requires |stopBefore| == |fullAfter|
  {
    forall x :: 0 <= x < |at| - 1 ==> !CutCalled(stopBefore, fullAfter, at[x], at[x + 1])
  }

  /** The files stand at these places, no cut is called for inside one, and one is called for
      between each and the next. */
  ghost predicate CutRight(input: seq<Entry>, stopBefore: seq<bool>, fullAfter: seq<bool>, files: seq<seq<Entry>>,
                           at: seq<seq<nat>>)
    requires |stopBefore| == |fullAfter|
  {
    && |files| == |at|
    && (forall o :: 0 <= o < |at| ==> WholeFile(input, stopBefore, fullAfter, files[o], at[o]))
    && forall o, o' :: 0 <= o && o' == o + 1 < |at| ==> CutBetween(stopBefore, fullAfter, at[o], at[o'])
  }

  ghost predicate WholeFile(input: seq<Entry>, stopBefore: seq<bool>, fullAfter: seq<bool>, file: seq<Entry>,
                            at: seq<nat>)
    requires |stopBefore| == |fullAfter|
  {
    at != [] && StandsAt(input, file, at) && Unbroken(stopBefore, fullAfter, at)
  }

  ghost predicate CutBetween(stopBefore: seq<bool>, fullAfter: seq<bool>, a: seq<nat>, b: seq<nat>)
    requires |stopBefore| == |fullAfter|
  {
    a != [] && b != [] && a[|a| - 1] < b[0] && CutCalled(stopBefore, fullAfter, a[|a| - 1], b[0])
  }

  /** Files cut and a file being filled, after entries before c were added and the calls to stop
      before entries up to u - 1 were heeded. */
  ghost predicate Cutting(input: seq<Entry>, stopBefore: seq<bool>, fullAfter: seq<bool>, files: seq<seq<Entry>>,
                          at: seq<seq<nat>>, builder: seq<Entry>, now: seq<nat>, c: nat, u: nat)
    requires |stopBefore| == |fullAfter|
  {
    && CutRight(input, stopBefore, fullAfter, files, at) && |builder| == |now| && c <= u
    && (now != [] ==>
          && WholeFile(input, stopBefore, fullAfter, builder, now)
          && now[|now| - 1] < c && !CutCalled(stopBefore, fullAfter, now[|now| - 1], u - 1))
    && (at != [] ==> Follows(stopBefore, fullAfter, at[|at| - 1], now, c, u))
  }

  /** After the last file, the next one has begun or a cut was called for. */
  ghost predicate Follows(stopBefore: seq<bool>, fullAfter: seq<bool>, last: seq<nat>, now: seq<nat>, c: nat, u: nat)
    requires |stopBefore| == |fullAfter|
  {
    && last != [] && last[|last| - 1] < c
    && if now != [] then CutBetween(stopBefore, fullAfter, last, now)
       else u > 0 && CutCalled(stopBefore, fullAfter, last[|last| - 1], u - 1)
  }

  lemma FilesGrow(input: seq<Entry>, stopBefore: seq<bool>, fullAfter: seq<bool>, files: seq<seq<Entry>>,
                  at: seq<seq<nat>>, builder: seq<Entry>, now: seq<nat>)
    requires |stopBefore| == |fullAfter|
    requires CutRight(input, stopBefore, fullAfter, files, at)
    requires WholeFile(input, stopBefore, fullAfter, builder, now)
    requires at != [] ==> CutBetween(stopBefore, fullAfter, at[|at| - 1], now)
    ensures CutRight(input, stopBefore, fullAfter, files + [builder], at + [now])
  {
    var more := at + [now];
    forall o, o' | 0 <= o && o' == o + 1 < |more| ensures CutBetween(stopBefore, fullAfter, more[o], more[o']) {
      if o' < |at| {
        assert CutBetween(stopBefore, fullAfter, at[o], at[o']);
      }
    }
  }

  lemma CutCalledMore(stopBefore: seq<bool>, fullAfter: seq<bool>, i: nat, j: nat)
    requires |stopBefore| == |fullAfter| && i <= j < |fullAfter| - 1
    ensures CutCalled(stopBefore, fullAfter, i, j + 1) <==> CutCalled(stopBefore, fullAfter, i, j) || stopBefore[j + 1]
  {
  }

  /** The call to stop before input i is heeded. */
  lemma StopStep(input: seq<Entry>, stopBefore: seq<bool>, fullAfter: seq<bool>, files: seq<seq<Entry>>,
                 at: seq<seq<nat>>, builder: seq<Entry>, now: seq<nat>, i: nat)
    requires |stopBefore| == |fullAfter| && i < |fullAfter|
    requires Cutting(input, stopBefore, fullAfter, files, at, builder, now, i, i)
    ensures if stopBefore[i] && builder != [] then
              Cutting(input, stopBefore, fullAfter, files + [builder], at + [now], [], [], i, i + 1)
            else Cutting(input, stopBefore, fullAfter, files, at, builder, now, i, i + 1)
  {
    if now != [] {
      CutCalledMore(stopBefore, fullAfter, now[|now| - 1], i - 1);
      if stopBefore[i] {
        FilesGrow(input, stopBefore, fullAfter, files, at, builder, now);
      }
    } else if at != [] {
      var last := at[|at| - 1];
      CutCalledMore(stopBefore, fullAfter, last[|last| - 1], i - 1);
    }
  }

  lemma AddPlace(input: seq<Entry>, stopBefore: seq<bool>, fullAfter: seq<bool>, builder: seq<Entry>, now: seq<nat>,
                 i: nat)
    requires |stopBefore| == |fullAfter| == |input| && i < |input| && |builder| == |now|
    requires now != [] ==>
      && WholeFile(input, stopBefore, fullAfter, builder, now)
      && now[|now| - 1] < i && !CutCalled(stopBefore, fullAfter, now[|now| - 1], i)
    ensures WholeFile(input, stopBefore, fullAfter, builder + [input[i]], now + [i])
  {
    var more := now + [i];
    forall x | 0 <= x < |more| - 1 ensures !CutCalled(stopBefore, fullAfter, more[x], more[x + 1]) {
      if x < |now| - 1 {
        assert more[x] == now[x] && more[x + 1] == now[x + 1];
      }
    }
  }

  /** Input i is added, and ends the file if it is full then. */
  lemma KeepStep(input: seq<Entry>, stopBefore: seq<bool>, fullAfter: seq<bool>, files: seq<seq<Entry>>,
                 at: seq<seq<nat>>, builder: seq<Entry>, now: seq<nat>, i: nat)
    requires |stopBefore| == |fullAfter| == |input| && i < |input|
    requires Cutting(input, stopBefore, fullAfter, files, at, builder, now, i, i + 1)
    ensures if fullAfter[i] then
              Cutting(input, stopBefore, fullAfter, files + [builder + [input[i]]], at + [now + [i]], [], [], i + 1,
                      i + 1)
            else
              Cutting(input, stopBefore, fullAfter, files, at, builder + [input[i]], now + [i], i + 1, i + 1)
  {
    AddPlace(input, stopBefore, fullAfter, builder, now, i);
    if fullAfter[i] {
      FilesGrow(input, stopBefore, fullAfter, files, at, builder + [input[i]], now + [i]);
    }
  }

  lemma DropStep(input: seq<Entry>, stopBefore: seq<bool>, fullAfter: seq<bool>, files: seq<seq<Entry>>,
                 at: seq<seq<nat>>, builder: seq<Entry>, now: seq<nat>, i: nat)
    requires |stopBefore| == |fullAfter|
    requires Cutting(input, stopBefore, fullAfter, files, at, builder, now, i, i + 1)
    ensures Cutting(input, stopBefore, fullAfter, files, at, builder, now, i + 1, i + 1)
  {
  }

  /** A compaction object: the version it was picked from and, per level, how far
      IsBaseLevelForKey has scanned. */
  class Compaction {
    const levels: seq<Level>
    const level: nat
    var levelPtrs: seq<nat>

    ghost predicate Valid()
      reads this
    {
      && |levels| == NUM_LEVELS && |levelPtrs| == NUM_LEVELS
      && (forall l :: 1 <= l < NUM_LEVELS ==> SortedLevel(levels[l]))
      && (forall l :: 0 <= l < NUM_LEVELS ==> levelPtrs[l] <= |levels[l]|)
    }

    /** Everything already skipped ends before k. */
    ghost predicate ScannedBelow(k: UserKey)
      requires Valid()
      reads this
    {
      forall l, i :: level + 2 <= l < NUM_LEVELS && 0 <= i < levelPtrs[l] ==> Largest(levels[l][i]).key < k
    }

    constructor (levels: seq<Level>, level: nat)
      requires |levels| == NUM_LEVELS
      requires forall l :: 1 <= l < NUM_LEVELS ==> SortedLevel(levels[l])
      ensures this.levels == levels && this.level == level
      ensures Valid() && forall k :: ScannedBelow(k)
    {
      this.levels := levels;
      this.level := level;
      levelPtrs := seq(NUM_LEVELS, _ => 0);
    }

    /** The moving pointers agree with a full scan of the deeper levels as long as
        the keys asked for never decrease. */
    method IsBaseLevelForKey(k: UserKey) returns (base: bool)
      requires Valid() && ScannedBelow(k)
      modifies this
      ensures Valid() && ScannedBelow(k)
      ensures base <==> BaseLevel(levels, level, k)
    {
      var lvl := level + 2;
      while lvl < NUM_LEVELS
        invariant level + 2 <= lvl
        invariant Valid() && ScannedBelow(k)
        invariant forall l, i :: level + 2 <= l < lvl && l < NUM_LEVELS && 0 <= i < |levels[l]| ==>
          !Covers(levels[l][i], k)
      {
        ghost var files := levels[lvl];
        while levelPtrs[lvl] < |levels[lvl]|
          invariant Valid() && ScannedBelow(k)
          invariant forall l, i :: level + 2 <= l < lvl && l < NUM_LEVELS && 0 <= i < |levels[l]| ==>
            !Covers(levels[l][i], k)
          decreases |levels[lvl]| - levelPtrs[lvl]
        {
          var f := levels[lvl][levelPtrs[lvl]];
          if k <= Largest(f).key {
            if k >= Smallest(f).key {
              assert Covers(f, k);
              return false;
            }
            forall i | levelPtrs[lvl] < i < |levels[lvl]| ensures !Covers(levels[lvl][i], k) {
              SortedLevelEnds(levels[lvl], levelPtrs[lvl], i);
            }
            break;
          }
          levelPtrs := levelPtrs[lvl := levelPtrs[lvl] + 1];
        }
        assert forall i :: 0 <= i < |levels[lvl]| ==> !Covers(levels[lvl][i], k);
        lvl := lvl + 1;
      }
      return true;
    }

    /** Finishes the current output file, if there is one, before input i where it should stop. */
    static method StopBefore(ghost input: seq<Entry>, stopBefore: seq<bool>, ghost fullAfter: seq<bool>,
                             outputs: seq<seq<Entry>>, builder: seq<Entry>, i: nat, ghost at: seq<seq<nat>>,
                             ghost now: seq<nat>)
      returns (outputs': seq<seq<Entry>>, builder': seq<Entry>, ghost at': seq<seq<nat>>, ghost now': seq<nat>)
      requires |stopBefore| == |fullAfter| && i < |stopBefore|
      requires Cutting(input, stopBefore, fullAfter, outputs, at, builder, now, i, i)
      ensures Cutting(input, stopBefore, fullAfter, outputs', at', builder', now', i, i + 1)
      ensures Flatten(outputs') + builder' == Flatten(outputs) + builder
    {
      StopStep(input, stopBefore, fullAfter, outputs, at, builder, now, i);
      outputs', builder', at', now' := outputs, builder, at, now;
      if stopBefore[i] && builder != [] {
        FlattenAppend(outputs, builder);
        outputs', builder', at', now' := outputs + [builder], [], at + [now], [];
      }
    }

    /** Adds input i to the current output file, and finishes the file if it is full then. */
    static method AddToOutput(ghost input: seq<Entry>, ghost stopBefore: seq<bool>, fullAfter: seq<bool>,
                              outputs: seq<seq<Entry>>, builder: seq<Entry>, e: Entry, i: nat, ghost at: seq<seq<nat>>,
                              ghost now: seq<nat>)
      returns (outputs': seq<seq<Entry>>, builder': seq<Entry>, ghost at': seq<seq<nat>>, ghost now': seq<nat>)
      requires |stopBefore| == |fullAfter| == |input| && i < |input| && e == input[i]
      requires Cutting(input, stopBefore, fullAfter, outputs, at, builder, now, i, i + 1)
      ensures Cutting(input, stopBefore, fullAfter, outputs', at', builder', now', i + 1, i + 1)
      ensures Flatten(outputs') + builder' == Flatten(outputs) + builder + [e]
    {
      KeepStep(input, stopBefore, fullAfter, outputs, at, builder, now, i);
      assert Flatten(outputs) + (builder + [e]) == Flatten(outputs) + builder + [e];
      outputs', builder', at', now' := outputs, builder + [e], at, now + [i];
      if fullAfter[i] {
        FlattenAppend(outputs, builder + [e]);
        outputs', builder', at', now' := outputs + [builder + [e]], [], at + [now + [i]], [];
      }
    }

    /** Finishes the last output file. */
    static method LastOutput(ghost input: seq<Entry>, ghost stopBefore: seq<bool>, ghost fullAfter: seq<bool>,
                             outputs: seq<seq<Entry>>, builder: seq<Entry>, ghost at: seq<seq<nat>>,
                             ghost now: seq<nat>)
      returns (outputs': seq<seq<Entry>>, ghost at': seq<seq<nat>>)
      requires |stopBefore| == |fullAfter| == |input|
      requires Cutting(input, stopBefore, fullAfter, outputs, at, builder, now, |input|, |input|)
      ensures CutRight(input, stopBefore, fullAfter, outputs', at')
      ensures Flatten(outputs') == Flatten(outputs) + builder
    {
      outputs', at' := outputs, at;
      if builder != [] {
        FlattenAppend(outputs, builder);
        FilesGrow(input, stopBefore, fullAfter, outputs, at, builder, now);
        outputs', at' := outputs + [builder], at + [now];
      }
    }

    lemma ScanMonotone(k: UserKey, k': UserKey)
      requires Valid() && ScannedBelow(k) && k <= k'
      ensures ScannedBelow(k')
    {
    }

    /** The drop decision for one entry, given the sequence number of the previous
        entry of the same user key (MAX_SEQUENCE if there is none). */
    method ShouldDrop(e: Entry, lastSequenceForKey: nat, ss: nat) returns (drop: bool)
      requires Valid() && ScannedBelow(e.key)
      modifies this
      ensures Valid() && ScannedBelow(e.key)
      ensures drop <==> lastSequenceForKey <= ss || (e.kind.Deletion? && e.sn <= ss && BaseLevel(levels, level, e.key))
    {
      if lastSequenceForKey <= ss {
        return true;
      } else if e.kind.Deletion? && e.sn <= ss {
        drop := IsBaseLevelForKey(e.key);
      } else {
        return false;
      }
    }

    /** The decision for input i, given the user key and number of the entry before it, if any. */
    method Consider(input: seq<Entry>, ss: nat, i: nat, hasCurrentUserKey: bool, currentUserKey: UserKey,
                    lastSequenceForKey: nat)
      returns (drop: bool)
      requires Valid() && SortedEntries(input) && ss < MAX_SEQUENCE && i < |input| && ScannedBelow(input[i].key)
      requires hasCurrentUserKey <==> i > 0
      requires i > 0 ==> currentUserKey == input[i - 1].key && lastSequenceForKey == input[i - 1].sn
      modifies this
      ensures Valid() && (i + 1 < |input| ==> ScannedBelow(input[i + 1].key))
      ensures drop <==> Dropped(levels, level, input, ss, i)
    {
      var e := input[i];
      var last := lastSequenceForKey;
      if !hasCurrentUserKey || e.key != currentUserKey {
        last := MAX_SEQUENCE;
      }
      drop := ShouldDrop(e, last, ss);
      if i + 1 < |input| {
        assert LessE(input[i], input[i + 1]);
        ScanMonotone(input[i].key, input[i + 1].key);
      }
    }

    /** Adds input i unless it is dropped. */
    static method Emit(drop: bool, input: seq<Entry>, ghost stopBefore: seq<bool>, fullAfter: seq<bool>,
                       outputs: seq<seq<Entry>>, builder: seq<Entry>, i: nat, ghost at: seq<seq<nat>>,
                       ghost now: seq<nat>)
      returns (outputs': seq<seq<Entry>>, builder': seq<Entry>, ghost at': seq<seq<nat>>, ghost now': seq<nat>)
      requires |stopBefore| == |fullAfter| == |input| && i < |input|
      requires Cutting(input, stopBefore, fullAfter, outputs, at, builder, now, i, i + 1)
      ensures Cutting(input, stopBefore, fullAfter, outputs', at', builder', now', i + 1, i + 1)
      ensures Flatten(outputs') + builder' == Flatten(outputs) + builder + if drop then [] else [input[i]]
    {
      if drop {
        DropStep(input, stopBefore, fullAfter, outputs, at, builder, now, i);
        outputs', builder', at', now' := outputs, builder, at, now;
      } else {
        outputs', builder', at', now' :=
          AddToOutput(input, stopBefore, fullAfter, outputs, builder, input[i], i, at, now);
      }
    }

    /** The loop of DoCompactionWork over the merged input. stopBefore and fullAfter
        are the outcomes of ShouldStopBefore and of the output-size test. */
    method DoCompactionWork(input: seq<Entry>, ss: nat, stopBefore: seq<bool>, fullAfter: seq<bool>)
      returns (outputs: seq<seq<Entry>>, ghost at: seq<seq<nat>>)
      requires Valid() && forall k :: ScannedBelow(k)
      requires SortedEntries(input) && ss < MAX_SEQUENCE
      requires |stopBefore| == |fullAfter| == |input|
      modifies this
      ensures Flatten(outputs) == Survivors(levels, level, input, ss)
      ensures SortedEntries(Flatten(outputs))
      ensures forall e :: e in Flatten(outputs) <==> MustStay(levels, level, input, ss, e)
      ensures CutRight(input, stopBefore, fullAfter, outputs, at)
    {
      outputs, at := [], [];
      var builder: seq<Entry> := [];
      ghost var now: seq<nat> := [];
      var hasCurrentUserKey := false;
      var currentUserKey := 0;
      var lastSequenceForKey := MAX_SEQUENCE;
      for i := 0 to |input|
        invariant Valid()
        invariant i < |input| ==> ScannedBelow(input[i].key)
        invariant Flatten(outputs) + builder == Survivors(levels, level, input[..i], ss)
        invariant Cutting(input, stopBefore, fullAfter, outputs, at, builder, now, i, i)
        invariant hasCurrentUserKey <==> i > 0
        invariant i > 0 ==> currentUserKey == input[i - 1].key && lastSequenceForKey == input[i - 1].sn
      {
        SurvivorsStep(levels, level, input, ss, i);
        outputs, builder, at, now := StopBefore(input, stopBefore, fullAfter, outputs, builder, i, at, now);
        var drop := Consider(input, ss, i, hasCurrentUserKey, currentUserKey, lastSequenceForKey);
        hasCurrentUserKey, currentUserKey, lastSequenceForKey := true, input[i].key, input[i].sn;
        outputs, builder, at, now := Emit(drop, input, stopBefore, fullAfter, outputs, builder, i, at, now);
      }
      assert input[..|input|] == input;
      outputs, at := LastOutput(input, stopBefore, fullAfter, outputs, builder, at, now);
      SurvivorsSorted(levels, level, input, ss);
      AllSurviveIff(levels, level, input, ss);
    }
  }

  // ---- What the surviving entries mean ----

  ghost function Elems(es: seq<Entry>): set<Entry> {
    set e | e in es
  }

  /** d may be removed from a store that reads at snapshots >= ss only: something
      newer hides it, or it is a deletion marker with nothing older left in S'. */
  ghost predicate Justified(S: set<Entry>, S': set<Entry>, ss: nat, d: Entry) {
    || (exists c :: c in S && c.key == d.key && c.sn > d.sn && c.sn <= ss)
    || (d.kind.Deletion? && d.sn <= ss && forall e :: e in S' && e.key == d.key ==> e.sn >= d.sn)
  }

  /** Dropping justified entries changes no read at ss or later. */
  lemma JustifiedDropsKeepReads(S: set<Entry>, S': set<Entry>, ss: nat, k: UserKey, s: nat, r: Option<string>)
    requires S' <= S && UniqueSeqs(S)
    requires forall d :: d in S - S' ==> Justified(S, S', ss, d)
    requires ss <= s
    ensures Reads(S, k, s, r) <==> Reads(S', k, s, r)
  {
    if w :| w in S && w.key == k && w.sn <= s {
      var e := NewestExists(S, k, s, w);
      if e in S' {
        assert Newest(S', k, s, e);
        forall f | Newest(S', k, s, f) ensures f == e {}
      } else {
        assert e in S - S';
        assert e.kind.Deletion?;
        forall f | f in S' && f.key == k && f.sn <= s ensures false {
        }
      }
    }
  }

  /** Where the survivors come from. */
  lemma SurvivorAt(levels: seq<Level>, level: nat, input: seq<Entry>, ss: nat, i: nat)
    requires i < |input| && SortedEntries(input)
    ensures input[i] in Survivors(levels, level, input, ss) <==> !Dropped(levels, level, input, ss, i)
    decreases |input|
  {
    var n := |input| - 1;
    var init := input[..n];
    SurvivorsSubset(levels, level, init, ss);
    if i < n {
      SurvivorAt(levels, level, init, ss, i);
      assert Dropped(levels, level, init, ss, i) <==> Dropped(levels, level, input, ss, i);
      assert LessE(input[i], input[n]);
    } else {
      forall j | 0 <= j < n ensures init[j] != input[n] {
        assert LessE(input[j], input[n]);
      }
    }
  }

  lemma {:induction false} SurvivorsSubset(levels: seq<Level>, level: nat, input: seq<Entry>, ss: nat)
    ensures forall e :: e in Survivors(levels, level, input, ss) ==> e in input
  {
    if input != [] {
      SurvivorsSubset(levels, level, input[..|input| - 1], ss);
    }
  }

  lemma {:induction false} SurvivorsSorted(levels: seq<Level>, level: nat, input: seq<Entry>, ss: nat)
    requires SortedEntries(input)
    ensures SortedEntries(Survivors(levels, level, input, ss))
  {
    if input != [] {
      var n := |input| - 1;
      SurvivorsSorted(levels, level, input[..n], ss);
      SurvivorsSubset(levels, level, input[..n], ss);
      var init := Survivors(levels, level, input[..n], ss);
      forall j | 0 <= j < |init| ensures LessE(init[j], input[n]) {
        assert init[j] in input[..n];
        var m :| 0 <= m < n && input[m] == init[j];
      }
    }
  }

  /** After a dropped or kept entry at or below ss, every older entry of the same
      key is dropped. */
  lemma OlderAreDropped(levels: seq<Level>, level: nat, input: seq<Entry>, ss: nat, i: nat, j: nat)
    requires SortedEntries(input) && i < j < |input|
    requires input[i].key == input[j].key && input[i].sn <= ss
    ensures Dropped(levels, level, input, ss, j)
  {
    assert LessE(input[i], input[j]);
    if i < j - 1 {
      assert LessE(input[i], input[j - 1]) && LessE(input[j - 1], input[j]);
    }
  }

  /** What survives is the input without what other input entries hide and without the markers
      that have nothing below to hide. */
  lemma SurvivesIff(levels: seq<Level>, level: nat, input: seq<Entry>, ss: nat, e: Entry)
    requires SortedEntries(input)
    ensures e in Survivors(levels, level, input, ss) <==> MustStay(levels, level, input, ss, e)
  {
    SurvivorsSubset(levels, level, input, ss);
    if e in input {
      var j :| 0 <= j < |input| && input[j] == e;
      SurvivorAt(levels, level, input, ss, j);
      HiddenIff(input, ss, j);
    }
  }

  lemma AllSurviveIff(levels: seq<Level>, level: nat, input: seq<Entry>, ss: nat)
    requires SortedEntries(input)
    ensures forall e :: e in Survivors(levels, level, input, ss) <==> MustStay(levels, level, input, ss, e)
  {
    forall e ensures e in Survivors(levels, level, input, ss) <==> MustStay(levels, level, input, ss, e) {
      SurvivesIff(levels, level, input, ss, e);
    }
  }

  /** An entry is hidden by some input entry exactly if the one before it hides it. */
  lemma HiddenIff(input: seq<Entry>, ss: nat, j: nat)
    requires SortedEntries(input) && j < |input|
    ensures (exists c :: c in input && Hides(c, input[j], ss)) <==>
            j > 0 && input[j - 1].key == input[j].key && input[j - 1].sn <= ss
  {
    if j > 0 && input[j - 1].key == input[j].key && input[j - 1].sn <= ss {
      assert LessE(input[j - 1], input[j]);
      assert input[j - 1] in input && Hides(input[j - 1], input[j], ss);
    }
    forall c | c in input && Hides(c, input[j], ss)
      ensures j > 0 && input[j - 1].key == input[j].key && input[j - 1].sn <= ss
    {
      var i :| 0 <= i < |input| && input[i] == c;
      if j <= i {
        NotHiddenByLater(input, ss, i, j);
        assert false;
      }
      HiddenByPrevious(input, ss, i, j);
    }
  }

  lemma NotHiddenByLater(input: seq<Entry>, ss: nat, i: nat, j: nat)
    requires SortedEntries(input) && j <= i < |input|
    ensures !Hides(input[i], input[j], ss)
  {
    if j < i {
      assert LessE(input[j], input[i]);
    }
  }

  lemma HiddenByPrevious(input: seq<Entry>, ss: nat, i: nat, j: nat)
    requires SortedEntries(input) && i < j < |input| && Hides(input[i], input[j], ss)
    ensures input[j - 1].key == input[j].key && input[j - 1].sn <= ss
  {
    if i < j - 1 {
      assert LessE(input[i], input[j - 1]) && LessE(input[j - 1], input[j]);
    }
  }

  /** Every entry the loop drops is either hidden inside the input, or a deletion
      marker at its base level all of whose older input entries are dropped too. */
  lemma DropsExplained(levels: seq<Level>, level: nat, input: seq<Entry>, ss: nat, d: Entry)
    requires SortedEntries(input) && UniqueSeqs(Elems(input))
    requires d in input && d !in Survivors(levels, level, input, ss)
    ensures (exists c :: c in input && c.key == d.key && c.sn > d.sn && c.sn <= ss) ||
            (d.kind.Deletion? && d.sn <= ss && BaseLevel(levels, level, d.key) &&
             forall e :: e in Survivors(levels, level, input, ss) && e.key == d.key ==> e.sn >= d.sn)
  {
    var i :| 0 <= i < |input| && input[i] == d;
    SurvivorAt(levels, level, input, ss, i);
    if i > 0 && input[i - 1].key == d.key && input[i - 1].sn <= ss {
      var c := input[i - 1];
      assert LessE(c, input[i]);
      assert c.sn == d.sn ==> c == d by { assert c in Elems(input) && d in Elems(input); }
    } else {
      SurvivorsSubset(levels, level, input, ss);
      forall e | e in Survivors(levels, level, input, ss) && e.key == d.key ensures e.sn >= d.sn {
        var j :| 0 <= j < |input| && input[j] == e;
        if j > i {
          OlderAreDropped(levels, level, input, ss, i, j);
          SurvivorAt(levels, level, input, ss, j);
        } else if j < i {
          assert LessE(input[j], input[i]);
        }
      }
    }
  }

  /** With every input visible at ss at most one entry per user key survives. */
  lemma OneSurvivorPerKey(levels: seq<Level>, level: nat, input: seq<Entry>, ss: nat, a: Entry, b: Entry)
    requires SortedEntries(input) && forall e :: e in input ==> e.sn <= ss
    requires a in Survivors(levels, level, input, ss) && b in Survivors(levels, level, input, ss)
    requires a.key == b.key
    ensures a == b
  {
    SurvivorsSubset(levels, level, input, ss);
    var i :| 0 <= i < |input| && input[i] == a;
    var j :| 0 <= j < |input| && input[j] == b;
    SurvivorAt(levels, level, input, ss, i);
    SurvivorAt(levels, level, input, ss, j);
    if i < j {
      OlderAreDropped(levels, level, input, ss, i, j);
    } else if j < i {
      OlderAreDropped(levels, level, input, ss, j, i);
    }
  }
}
