/** What a torn log yields: exactly the records that lie wholly inside the prefix
    that reached the disk, and no corruption report. */
module LogTorn {
  import opened Wrappers
  import opened Coding
  import opened Log
  import opened LogReader

  /** The reader has consumed file[..p] and holds the rest of the block it read last. */
  ghost predicate InSync(file: Bytes, c: Cursor, p: nat) {
    && p <= c.end <= |file| && c.buffer == file[p..c.end]
    && if c.eof then c.end == |file| && c.end - c.end % BLOCK <= p else c.end % BLOCK == 0 && c.end - BLOCK <= p
  }

  lemma SliceOfSlice(s: Bytes, p: nat, q: nat, e: nat)
    requires p <= q <= e <= |s|
    ensures s[p..e][..q - p] == s[p..q] && s[p..e][q - p..] == s[q..e]
  {
  }

  /** `bytes` stands at position p. */
  ghost predicate Holds(file: Bytes, p: nat, bytes: Bytes) {
    p + |bytes| <= |file| && file[p..p + |bytes|] == bytes
  }

  /** The file ends somewhere inside `bytes`, which begins at p. */
  ghost predicate Cut(file: Bytes, p: nat, bytes: Bytes) {
    p <= |file| < p + |bytes| && file[p..] <= bytes
  }

  lemma HoldsSplit(file: Bytes, p: nat, a: Bytes, b: Bytes, q: nat)
    requires Holds(file, p, a + b) && q == p + |a|
    ensures Holds(file, p, a) && Holds(file, q, b)
  {
    var s := file[p..p + |a| + |b|];
    assert s[..|a|] == file[p..p + |a|] && s[|a|..] == file[p + |a|..p + |a| + |b|];
    assert (a + b)[..|a|] == a && (a + b)[|a|..] == b;
  }

  lemma CutSplit(file: Bytes, p: nat, a: Bytes, b: Bytes, q: nat)
    requires p <= |file| && file[p..] <= a + b && q == p + |a|
    ensures if |file| < q then Cut(file, p, a) else Holds(file, p, a) && file[q..] <= b
  {
    var s := file[p..];
    if |file| >= p + |a| {
      assert s[..|a|] == file[p..p + |a|] && s[|a|..] == file[p + |a|..];
      assert (a + b)[..|a|] == a && (a + b)[|a|..] == b;
    }
  }

  /** The reader either is inside the block of p or loads it next. */
  lemma AtBlock(crc: Crc, file: Bytes, c: Cursor, p: nat) returns (d: Cursor)
    requires InSync(file, c, p) && BLOCK - p % BLOCK >= HEADER
    ensures InSync(file, d, p) && d.end == (if |file| < p - p % BLOCK + BLOCK then |file| else p - p % BLOCK + BLOCK)
    ensures d.eof == (d.end < p - p % BLOCK + BLOCK)
    ensures ReadPhysical(crc, file, c) == ReadPhysical(crc, file, d)
  {
    d := c;
    if !c.eof && p == c.end {
      d := LoadBlock(file, c.end);
    }
  }

  lemma HeaderFields(crc: Crc, t: byte, payload: Bytes, buffer: Bytes)
    requires |payload| <= 0xffff && |buffer| >= HEADER
    requires buffer[..HEADER] == Physical(crc, t, payload)[..HEADER]
    ensures buffer[4] as int + 256 * (buffer[5] as int) == |payload| && buffer[6] == t
    ensures Unmask(DecodeFixed32(buffer)) == crc([t] + payload)
  {
    var h := Physical(crc, t, payload);
    var m := Mask(crc([t] + payload));
    assert forall i :: 0 <= i < HEADER ==> buffer[i] == buffer[..HEADER][i] == h[i];
    assert h == Fixed32(m) + ([|payload| % 256, |payload| / 256, t] + payload);
    UnmaskMask(crc([t] + payload));
    Fixed32RoundTrip(m);
    assert DecodeFixed32(buffer) == m;
  }

  /** Parsing a record that is all in the buffer. */
  lemma ParseWhole(crc: Crc, c: Cursor, t: byte, payload: Bytes)
    requires 1 <= t && |payload| <= 0xffff && Physical(crc, t, payload) <= c.buffer
    ensures ParsePhysical(crc, c) == PhysicalRead(t, payload, c.(buffer := c.buffer[HEADER + |payload|..]), false)
  {
    var size := HEADER + |payload|;
    assert c.buffer[..HEADER] == Physical(crc, t, payload)[..HEADER];
    HeaderFields(crc, t, payload, c.buffer);
    assert c.buffer[..size][HEADER..] == Physical(crc, t, payload)[HEADER..] == payload;
    assert c.buffer[HEADER..size] == c.buffer[..size][HEADER..];
  }

  lemma ReadWhole(crc: Crc, file: Bytes, c: Cursor, p: nat, t: byte, payload: Bytes)
    requires InSync(file, c, p) && 1 <= t && p % BLOCK + HEADER + |payload| <= BLOCK
    requires Holds(file, p, Physical(crc, t, payload))
    ensures c.end <= |file|
    ensures var r := ReadPhysical(crc, file, c);
      r.kind == t && r.payload == payload && !r.reported && InSync(file, r.next, p + HEADER + |payload|)
  {
    var d := AtBlock(crc, file, c, p);
    var size := HEADER + |payload|;
    SliceOfSlice(file, p, p + size, d.end);
    ParseWhole(crc, d, t, payload);
  }

  lemma ReadTorn(crc: Crc, file: Bytes, c: Cursor, p: nat, t: byte, payload: Bytes)
    requires InSync(file, c, p) && p % BLOCK + HEADER + |payload| <= BLOCK
    requires Cut(file, p, Physical(crc, t, payload))
    ensures c.end <= |file|
    ensures var r := ReadPhysical(crc, file, c); r.kind == EOF && !r.reported
  {
    var d := AtBlock(crc, file, c, p);
    assert d.eof && d.buffer == file[p..];
    if |d.buffer| >= HEADER {
      assert d.buffer[..HEADER] == Physical(crc, t, payload)[..HEADER];
      HeaderFields(crc, t, payload, d.buffer);
    }
  }

  /** The unused tail of a block is skipped, whatever it holds. */
  lemma SkipTrailer(crc: Crc, file: Bytes, c: Cursor, p: nat, q: nat) returns (d: Cursor)
    requires InSync(file, c, p) && BLOCK - p % BLOCK < HEADER && q == p + (BLOCK - p % BLOCK)
    ensures if q > |file| then ReadPhysical(crc, file, c).kind == EOF && !ReadPhysical(crc, file, c).reported
      else InSync(file, d, q) && ReadPhysical(crc, file, c) == ReadPhysical(crc, file, d)
  {
    d := c;
    if q <= |file| {
      d := LoadBlock(file, c.end);
    }
  }

  /** ReadLogical takes the fragments the writer emits without complaint. */
  lemma TakeFragment(crc: Crc, file: Bytes, c: Cursor, scratch: Bytes, begin: bool, end: bool, payload: Bytes)
    requires c.end <= |file| && (begin ==> scratch == [])
    requires var p := ReadPhysical(crc, file, c);
      p.kind == FragmentType(begin, end) && p.payload == payload && !p.reported
    ensures var p := ReadPhysical(crc, file, c); var r := ReadLogical(crc, file, c, scratch, !begin);
      if end then r == LogicalRead(Some(scratch + payload), p.next, 0)
      else r == ReadLogical(crc, file, p.next, scratch + payload, true)
  {
    if begin {
      assert scratch + payload == payload;
    }
  }

  /** One ReadRecord call started at c, with `scratch` assembled so far, returns `record`
      and leaves the reader at q. */
  ghost predicate Yields(crc: Crc, file: Bytes, c: Cursor, scratch: Bytes, inFragment: bool, record: Bytes, q: nat) {
    && c.end <= |file|
    && var r := ReadLogical(crc, file, c, scratch, inFragment);
       r.record == Some(record) && r.reports == 0 && InSync(file, r.next, q)
  }

  /** ... or ends without a record and without a complaint. */
  ghost predicate Stops(crc: Crc, file: Bytes, c: Cursor, scratch: Bytes, inFragment: bool) {
    && c.end <= |file|
    && var r := ReadLogical(crc, file, c, scratch, inFragment);
       r.record == None && r.reports == 0
  }

  /** Reading on from c is reading on from d with a longer scratch. */
  ghost predicate SameRead(crc: Crc, file: Bytes, c: Cursor, s: Bytes, f: bool, d: Cursor, s': Bytes, f': bool) {
    && c.end <= |file| && d.end <= |file|
    && ReadLogical(crc, file, c, s, f) == ReadLogical(crc, file, d, s', f')
  }

  lemma Transfer(crc: Crc, file: Bytes, c: Cursor, s: Bytes, f: bool, d: Cursor, s': Bytes, f': bool, record: Bytes,
                 q: nat)
    requires SameRead(crc, file, c, s, f, d, s', f')
    ensures Yields(crc, file, d, s', f', record, q) ==> Yields(crc, file, c, s, f, record, q)
    ensures Stops(crc, file, d, s', f') ==> Stops(crc, file, c, s, f)
  {
  }

  lemma PassTrailer(crc: Crc, file: Bytes, c: Cursor, p: nat, scratch: Bytes, inFragment: bool, q: nat)
    returns (d: Cursor)
    requires InSync(file, c, p) && BLOCK - p % BLOCK < HEADER && q == p + (BLOCK - p % BLOCK)
    ensures if q > |file| then Stops(crc, file, c, scratch, inFragment)
      else InSync(file, d, q) && SameRead(crc, file, c, scratch, inFragment, d, scratch, inFragment)
  {
    d := SkipTrailer(crc, file, c, p, q);
  }

  lemma PassFragment(crc: Crc, file: Bytes, c: Cursor, p: nat, begin: bool, scratch: Bytes, payload: Bytes, q: nat)
    returns (d: Cursor)
    requires InSync(file, c, p) && (begin ==> scratch == []) && p % BLOCK + HEADER + |payload| == BLOCK
    requires Holds(file, p, Physical(crc, FragmentType(begin, false), payload)) && q == p + HEADER + |payload|
    ensures InSync(file, d, q)
    ensures SameRead(crc, file, c, scratch, !begin, d, scratch + payload, true)
  {
    ReadWhole(crc, file, c, p, FragmentType(begin, false), payload);
    TakeFragment(crc, file, c, scratch, begin, false, payload);
    d := ReadPhysical(crc, file, c).next;
  }

  lemma LastFragment(crc: Crc, file: Bytes, c: Cursor, p: nat, begin: bool, scratch: Bytes, payload: Bytes)
    requires InSync(file, c, p) && (begin ==> scratch == []) && p % BLOCK + HEADER + |payload| <= BLOCK
    requires Holds(file, p, Physical(crc, FragmentType(begin, true), payload))
    ensures Yields(crc, file, c, scratch, !begin, scratch + payload, p + HEADER + |payload|)
  {
    ReadWhole(crc, file, c, p, FragmentType(begin, true), payload);
    TakeFragment(crc, file, c, scratch, begin, true, payload);
  }

  lemma CutFragment(crc: Crc, file: Bytes, c: Cursor, p: nat, begin: bool, scratch: Bytes, t: byte, payload: Bytes)
    requires InSync(file, c, p) && p % BLOCK + HEADER + |payload| <= BLOCK
    requires Cut(file, p, Physical(crc, t, payload))
    ensures Stops(crc, file, c, scratch, !begin)
  {
    ReadTorn(crc, file, c, p, t, payload);
  }

  /** What the first step of a record's fragments leaves to be read. */
  lemma PadStep(crc: Crc, file: Bytes, p: nat, left: Bytes, begin: bool, gap: nat, q: nat)
    requires BLOCK - p % BLOCK < HEADER && gap == BLOCK - p % BLOCK && q == p + gap
    ensures |Fragments(crc, p, left, begin)| == gap + |Fragments(crc, q, left, begin)| && Phase(q) < Phase(p)
    ensures Holds(file, p, Fragments(crc, p, left, begin)) ==> Holds(file, q, Fragments(crc, q, left, begin))
    ensures Cut(file, p, Fragments(crc, p, left, begin)) && q <= |file| ==>
      Cut(file, q, Fragments(crc, q, left, begin))
  {
    BlockEnd(p);
    var tail := Fragments(crc, q, left, begin);
    if Holds(file, p, Fragments(crc, p, left, begin)) {
      HoldsSplit(file, p, Zeros(gap), tail, q);
    } else if Cut(file, p, Fragments(crc, p, left, begin)) {
      CutSplit(file, p, Zeros(gap), tail, q);
    }
  }

  lemma FragmentStep(crc: Crc, file: Bytes, p: nat, left: Bytes, begin: bool, n: nat, q: nat)
    requires BLOCK - p % BLOCK >= HEADER && n == FragmentLength(p, left) < |left| && q == p + HEADER + n
    ensures |Fragments(crc, p, left, begin)| == HEADER + n + |Fragments(crc, q, left[n..], false)|
    ensures p % BLOCK + HEADER + n == BLOCK && (n > 0 || Phase(q) < Phase(p))
    ensures Holds(file, p, Fragments(crc, p, left, begin)) ==>
      Holds(file, p, Physical(crc, FragmentType(begin, false), left[..n]))
      && Holds(file, q, Fragments(crc, q, left[n..], false))
    ensures Cut(file, p, Fragments(crc, p, left, begin)) ==>
      if |file| < q then Cut(file, p, Physical(crc, FragmentType(begin, false), left[..n]))
      else Holds(file, p, Physical(crc, FragmentType(begin, false), left[..n]))
           && Cut(file, q, Fragments(crc, q, left[n..], false))
  {
    FullBlock(p, n);
    var head := Physical(crc, FragmentType(begin, false), left[..n]);
    var tail := Fragments(crc, q, left[n..], false);
    if Holds(file, p, Fragments(crc, p, left, begin)) {
      HoldsSplit(file, p, head, tail, q);
    } else if Cut(file, p, Fragments(crc, p, left, begin)) {
      CutSplit(file, p, head, tail, q);
    }
  }

  lemma Rejoin(a: Bytes, b: Bytes, n: nat)
    requires n <= |b|
    ensures a + b[..n] + b[n..] == a + b
  {
  }

  lemma LastStep(crc: Crc, p: nat, left: Bytes, begin: bool)
    requires BLOCK - p % BLOCK >= HEADER && FragmentLength(p, left) == |left|
    ensures Fragments(crc, p, left, begin) == Physical(crc, FragmentType(begin, true), left)
  {
    assert left[..|left|] == left;
  }

  /** From any point of a record on: all its fragments are there, so it is returned. */
  lemma {:induction false} ReadFragments(crc: Crc, file: Bytes, c: Cursor, p: nat, left: Bytes, begin: bool,
                                         scratch: Bytes, record: Bytes, end: nat)
    requires InSync(file, c, p) && (begin ==> scratch == []) && record == scratch + left
    requires Holds(file, p, Fragments(crc, p, left, begin)) && end == p + |Fragments(crc, p, left, begin)|
    ensures Yields(crc, file, c, scratch, !begin, record, end)
    decreases |left|, Phase(p)
  {
    if BLOCK - p % BLOCK < HEADER {
      var q := p + (BLOCK - p % BLOCK);
      PadStep(crc, file, p, left, begin, BLOCK - p % BLOCK, q);
      var d := PassTrailer(crc, file, c, p, scratch, !begin, q);
      ReadFragments(crc, file, d, q, left, begin, scratch, record, end);
      Transfer(crc, file, c, scratch, !begin, d, scratch, !begin, record, end);
    } else if FragmentLength(p, left) == |left| {
      LastStep(crc, p, left, begin);
      LastFragment(crc, file, c, p, begin, scratch, left);
    } else {
      var n := FragmentLength(p, left);
      var q := p + HEADER + n;
      FragmentStep(crc, file, p, left, begin, n, q);
      var d := PassFragment(crc, file, c, p, begin, scratch, left[..n], q);
      Rejoin(scratch, left, n);
      ReadFragments(crc, file, d, q, left[n..], false, scratch + left[..n], record, end);
      Transfer(crc, file, c, scratch, !begin, d, scratch + left[..n], true, record, end);
    }
  }

  /** From any point of a record on: the file ends before its last byte, so the
      reader stops quietly. */
  lemma {:induction false} ReadTornFragments(crc: Crc, file: Bytes, c: Cursor, p: nat, left: Bytes, begin: bool,
                                             scratch: Bytes)
    requires InSync(file, c, p) && (begin ==> scratch == [])
    requires Cut(file, p, Fragments(crc, p, left, begin))
    ensures Stops(crc, file, c, scratch, !begin)
    decreases |left|, Phase(p)
  {
    if BLOCK - p % BLOCK < HEADER {
      var q := p + (BLOCK - p % BLOCK);
      PadStep(crc, file, p, left, begin, BLOCK - p % BLOCK, q);
      var d := PassTrailer(crc, file, c, p, scratch, !begin, q);
      if q <= |file| {
        ReadTornFragments(crc, file, d, q, left, begin, scratch);
        Transfer(crc, file, c, scratch, !begin, d, scratch, !begin, [], 0);
      }
    } else if FragmentLength(p, left) == |left| {
      LastStep(crc, p, left, begin);
      CutFragment(crc, file, c, p, begin, scratch, FragmentType(begin, true), left);
    } else {
      var n := FragmentLength(p, left);
      var q := p + HEADER + n;
      FragmentStep(crc, file, p, left, begin, n, q);
      if |file| < q {
        CutFragment(crc, file, c, p, begin, scratch, FragmentType(begin, false), left[..n]);
      } else {
        var d := PassFragment(crc, file, c, p, begin, scratch, left[..n], q);
        ReadTornFragments(crc, file, d, q, left[n..], false, scratch + left[..n]);
        Transfer(crc, file, c, scratch, !begin, d, scratch + left[..n], true, [], 0);
      }
    }
  }

  /** All records of a file and the number of corruptions reported. */
  datatype Replay = Replay(records: seq<Bytes>, reports: nat)

  function ReadAll(crc: Crc, file: Bytes, c: Cursor): (r: Replay)
    requires c.end <= |file|
    decreases Remaining(file, c)
  {
    var r := ReadLogical(crc, file, c, [], false);
    match r.record
    case None => Replay([], r.reports)
    case Some(record) =>
      var rest := ReadAll(crc, file, r.next);
      Replay([record] + rest.records, r.reports + rest.reports)
  }

  /** The read loop of RecoverLogFile. */
  method ReadFile(crc: Crc, file: Bytes) returns (records: seq<Bytes>, reports: nat)
    ensures Replay(records, reports) == ReadAll(crc, file, START)
  {
    var reader := new Reader(crc, file);
    records := [];
    var going := true;
    while going
      invariant reader.crc == crc && reader.file == file && reader.endOfBuffer <= |file|
      invariant fresh(reader)
      invariant going ==>
        var rest := ReadAll(crc, file, reader.At());
        ReadAll(crc, file, START) == Replay(records + rest.records, reader.reports + rest.reports)
      invariant !going ==> ReadAll(crc, file, START) == Replay(records, reader.reports)
      decreases going, Remaining(file, reader.At())
    {
      ghost var rest := ReadAll(crc, file, reader.At());
      var record := reader.ReadRecord();
      if record.Some? {
        ghost var after := ReadAll(crc, file, reader.At());
        assert records + ([record.value] + after.records) == records + [record.value] + after.records;
        records := records + [record.value];
      } else {
        assert records + [] == records;
        going := false;
      }
    }
    reports := reader.reports;
  }

  /** How many records lie wholly in the first n bytes. */
  function Whole(crc: Crc, p: nat, records: seq<Bytes>, n: nat): (k: nat)
    ensures k <= |records|
    decreases |records|
  {
    if records == [] || |Fragments(crc, p, records[0], true)| > n then 0
    else
      var b := Fragments(crc, p, records[0], true);
      1 + Whole(crc, p + |b|, records[1..], n - |b|)
  }

  lemma EncodeTake(crc: Crc, p: nat, records: seq<Bytes>, k: nat, b: Bytes)
    requires 0 < k <= |records| && b == Fragments(crc, p, records[0], true)
    ensures |Encode(crc, p, records[..k])| == |b| + |Encode(crc, p + |b|, records[1..][..k - 1])|
  {
    assert records[..k][1..] == records[1..][..k - 1];
  }

  lemma {:induction false} WholeIsMaximal(crc: Crc, p: nat, records: seq<Bytes>, n: nat, k: nat)
    requires k == Whole(crc, p, records, n)
    ensures |Encode(crc, p, records[..k])| <= n
    ensures k < |records| ==> n < |Encode(crc, p, records[..k + 1])|
    decreases |records|
  {
    if records != [] {
      var b := Fragments(crc, p, records[0], true);
      if |b| <= n {
        WholeIsMaximal(crc, p + |b|, records[1..], n - |b|, k - 1);
        EncodeTake(crc, p, records, k, b);
        if k < |records| {
          EncodeTake(crc, p, records, k + 1, b);
        }
      } else {
        EncodeTake(crc, p, records, 1, b);
      }
    }
  }

  /** ReadAll returns exactly the first k records, with no complaint. */
  ghost predicate Replays(crc: Crc, file: Bytes, c: Cursor, records: seq<Bytes>, k: nat)
    requires k <= |records|
  {
    c.end <= |file| && ReadAll(crc, file, c) == Replay(records[..k], 0)
  }

  lemma ReplayStop(crc: Crc, file: Bytes, c: Cursor, records: seq<Bytes>)
    requires Stops(crc, file, c, [], false)
    ensures Replays(crc, file, c, records, 0)
  {
  }

  lemma ReplayStep(crc: Crc, file: Bytes, c: Cursor, records: seq<Bytes>, q: nat, k: nat)
    requires records != [] && k < |records| && Yields(crc, file, c, [], false, records[0], q)
    requires Replays(crc, file, ReadLogical(crc, file, c, [], false).next, records[1..], k)
    ensures Replays(crc, file, c, records, k + 1)
  {
    assert records[..k + 1] == [records[0]] + records[1..][..k];
  }

  /** A record that is wholly in the file is read, and the reader stands at the next one. */
  lemma ReadHead(crc: Crc, file: Bytes, c: Cursor, p: nat, records: seq<Bytes>, q: nat)
    requires InSync(file, c, p) && p <= |file| && file[p..] <= Encode(crc, p, records) && records != []
    requires q == p + |Fragments(crc, p, records[0], true)| && q <= |file|
    ensures file[q..] <= Encode(crc, q, records[1..])
    ensures Yields(crc, file, c, [], false, records[0], q)
  {
    CutSplit(file, p, Fragments(crc, p, records[0], true), Encode(crc, q, records[1..]), q);
    ReadOne(crc, file, c, p, records[0], q);
  }

  lemma ReadOne(crc: Crc, file: Bytes, c: Cursor, p: nat, record: Bytes, q: nat)
    requires InSync(file, c, p) && Holds(file, p, Fragments(crc, p, record, true))
    requires q == p + |Fragments(crc, p, record, true)|
    ensures Yields(crc, file, c, [], false, record, q)
  {
    assert record == [] + record;
    ReadFragments(crc, file, c, p, record, true, [], record, q);
  }

  /** A record that is cut off by the end of the file ends the reading. */
  lemma ReadCutHead(crc: Crc, file: Bytes, c: Cursor, p: nat, records: seq<Bytes>, q: nat)
    requires InSync(file, c, p) && p <= |file| && file[p..] <= Encode(crc, p, records) && records != []
    requires q == p + |Fragments(crc, p, records[0], true)| && |file| < q
    ensures Replays(crc, file, c, records, 0)
  {
    CutSplit(file, p, Fragments(crc, p, records[0], true), Encode(crc, q, records[1..]), q);
    ReadTornFragments(crc, file, c, p, records[0], true, []);
    ReplayStop(crc, file, c, records);
  }

  lemma {:induction false} ReadTail(crc: Crc, file: Bytes, c: Cursor, p: nat, records: seq<Bytes>, k: nat)
    requires InSync(file, c, p) && p <= |file| && file[p..] <= Encode(crc, p, records)
    requires k == Whole(crc, p, records, |file| - p)
    ensures Replays(crc, file, c, records, k)
    decreases |records|
  {
    if records == [] {
      ReadNothing(crc, file, c);
    } else {
      var q := p + |Fragments(crc, p, records[0], true)|;
      if |file| < q {
        ReadCutHead(crc, file, c, p, records, q);
      } else {
        ReadHead(crc, file, c, p, records, q);
        ReadTail(crc, file, ReadLogical(crc, file, c, [], false).next, q, records[1..], k - 1);
        ReplayStep(crc, file, c, records, q, k - 1);
      }
    }
  }

  lemma ReadNothing(crc: Crc, file: Bytes, c: Cursor)
    requires InSync(file, c, |file|)
    ensures c.end <= |file|
    ensures ReadAll(crc, file, c) == Replay([], 0)
  {
    if !c.eof {
      var d := LoadBlock(file, c.end);
      assert ReadPhysical(crc, file, c) == ReadPhysical(crc, file, d);
    }
  }

  /** Every byte prefix of every log replays to the records wholly inside it. */
  lemma TornLog(crc: Crc, records: seq<Bytes>, n: nat) returns (k: nat)
    requires n <= |Encode(crc, 0, records)|
    ensures k <= |records| && |Encode(crc, 0, records[..k])| <= n
    ensures k < |records| ==> n < |Encode(crc, 0, records[..k + 1])|
    ensures ReadAll(crc, Encode(crc, 0, records)[..n], START) == Replay(records[..k], 0)
  {
    var file := Encode(crc, 0, records)[..n];
    assert file[0..] == file;
    k := Whole(crc, 0, records, n);
    WholeIsMaximal(crc, 0, records, n, k);
    ReadTail(crc, file, START, 0, records, k);
  }
}
