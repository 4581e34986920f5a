/** What the log reader makes of any bytes: which fragments it finds, where, and exactly which
    records and complaints they give; and how the writer lays a record out in 32 KB blocks. */
module LogScan {
  import opened Wrappers
  import opened Coding
  import opened Log
  import opened LogReader
  import opened LogTorn

  // ---- Masked checksums ----

  lemma Reshift(m: u32)
    ensures ((m - 0xa282ead8) % 0x1_0000_0000 + 0xa282ead8) % 0x1_0000_0000 == m
  {
  }

  lemma HalvesBack(r: u32)
    ensures (r / 0x2_0000 + r % 0x2_0000 * 0x8000) / 0x8000 == r % 0x2_0000
    ensures (r / 0x2_0000 + r % 0x2_0000 * 0x8000) % 0x8000 == r / 0x2_0000
  {
    var high, low := r % 0x2_0000, r / 0x2_0000;
    assert low < 0x8000;
    assert (low + high * 0x8000) / 0x8000 == high;
  }

  lemma MaskUnmask(m: u32)
    ensures Mask(Unmask(m)) == m
  {
    var rot := (m - 0xa282ead8) % 0x1_0000_0000;
    HalvesBack(rot);
    Reshift(m);
  }

  /** Masking rotates right by 15 bits and adds a constant. */
  lemma MaskValue(high: nat, low: nat)
    requires high < 0x2_0000 && low < 0x8000
    ensures Mask(high * 0x8000 + low) == (low * 0x2_0000 + high + 0xa282ead8) % 0x1_0000_0000
  {
    assert (high * 0x8000 + low) / 0x8000 == high && (high * 0x8000 + low) % 0x8000 == low;
  }

  // ---- One physical record ----

  /** The end of the block of q, or of the file. */
  function EndOf(file: Bytes, q: nat): nat {
    if |file| < q - q % 32768 + 32768 then |file| else q - q % 32768 + 32768
  }

  /** Where a reader that has come to p looks for a header: fewer than seven bytes at the end of a
      block are a trailer, and skipped. */
  function HeaderAfter(file: Bytes, p: nat): nat {
    if p + 7 <= EndOf(file, p) then p else p - p % 32768 + 32768
  }

  function LengthAt(file: Bytes, q: nat): nat
    requires q + 7 <= |file|
  {
    file[q + 4] as nat + 256 * (file[q + 5] as nat)
  }

  /** The four bytes at q are the masked checksum of the type and the payload. */
  predicate ChecksumOk(crc: Crc, file: Bytes, q: nat)
    requires q + 7 <= |file| && q + 7 + LengthAt(file, q) <= |file|
  {
    DecodeFixed32(file[q..]) == Mask(crc(file[q + 6..q + 7 + LengthAt(file, q)]))
  }

  /** An intact fragment of this type stands at q, inside one block. */
  predicate Intact(crc: Crc, file: Bytes, q: nat, t: nat, payload: Bytes) {
    && q + 7 + |payload| <= EndOf(file, q) && LengthAt(file, q) == |payload| && file[q + 6] as nat == t
    && file[q + 7..q + 7 + |payload|] == payload && ChecksumOk(crc, file, q)
  }

  /** What is found at a header: a fragment with its type, or 6 for bad bytes, or 5 for the end. */
  datatype Event = Event(kind: nat, payload: Bytes, reported: bool)

  /** A record that runs over the end of what can be read is corruption in a whole block, and at
      the end of the file one that was never finished. */
  function EventAt(crc: Crc, file: Bytes, q: nat): Event
    requires q + 7 <= |file|
  {
    var n, e := LengthAt(file, q), EndOf(file, q);
    if q + 7 + n > e then if e % 32768 == 0 then Event(6, [], true) else Event(5, [], false)
    else if file[q + 6] == 0 && n == 0 then Event(6, [], false)
    else if !ChecksumOk(crc, file, q) then Event(6, [], true)
    else Event(file[q + 6], file[q + 7..q + 7 + n], false)
  }

  /** A bad record costs the rest of its block. */
  function PlaceAfter(crc: Crc, file: Bytes, q: nat): nat
    requires q + 7 <= |file|
  {
    var n, e := LengthAt(file, q), EndOf(file, q);
    if q + 7 + n <= e && (file[q + 6] != 0 || n > 0) && ChecksumOk(crc, file, q) then q + 7 + n else e
  }

  /** Everything found in the file from p on. */
  function Scan(crc: Crc, file: Bytes, p: nat): seq<Event>
    decreases |file| - p
  {
    var q := HeaderAfter(file, p);
    if q + 7 > |file| || EventAt(crc, file, q).kind == 5 then []
    else [EventAt(crc, file, q)] + Scan(crc, file, PlaceAfter(crc, file, q))
  }

  /** Where the reader looks, in terms of the cursor. */
  lemma LooksAt(crc: Crc, file: Bytes, c: Cursor, p: nat, q: nat) returns (d: Cursor)
    requires InSync(file, c, p) && q == HeaderAfter(file, p)
    ensures q + 7 <= |file| ==>
      && InSync(file, d, q) && d.end == EndOf(file, q) >= q + 7 && (d.eof <==> d.end % BLOCK != 0)
      && |d.buffer| >= HEADER && ReadPhysical(crc, file, c) == ParsePhysical(crc, d)
    ensures q + 7 > |file| ==> var r := ReadPhysical(crc, file, c); r.kind == EOF && !r.reported
  {
    d := c;
    BlockOf(file, c, p);
    if |c.buffer| < HEADER && !c.eof {
      d := LoadBlock(file, c.end);
      BlockStart(file, c.end);
    }
  }

  /** The reader stands in the block of p, or at the end of the one before. */
  lemma BlockOf(file: Bytes, c: Cursor, p: nat)
    requires InSync(file, c, p)
    ensures p < c.end ==> c.end == EndOf(file, p)
    ensures p < c.end ==> (c.eof <==> c.end % BLOCK != 0)
    ensures p == c.end && !c.eof ==> p % BLOCK == 0
  {
  }

  lemma BlockStart(file: Bytes, a: nat)
    requires a % BLOCK == 0 && a <= |file|
    ensures EndOf(file, a) == LoadBlock(file, a).end
    ensures LoadBlock(file, a).end > a ==> (LoadBlock(file, a).eof <==> LoadBlock(file, a).end % BLOCK != 0)
  {
  }

  lemma SliceIn(s: Bytes, q: nat, e: nat, a: nat, b: nat)
    requires q <= e <= |s| && a <= b <= e - q
    ensures s[q..e][a..b] == s[q + a..q + b]
  {
    assert forall i :: 0 <= i < b - a ==> s[q..e][a..b][i] == s[q + a..q + b][i];
  }

  lemma HeaderBytes(file: Bytes, q: nat, e: nat, n: nat)
    requires q + 7 <= e <= |file| && n == LengthAt(file, q)
    ensures file[q..e][4] as int + 256 * (file[q..e][5] as int) == n && file[q..e][6] == file[q + 6]
    ensures DecodeFixed32(file[q..e]) == DecodeFixed32(file[q..])
    ensures q + 7 + n <= e ==>
      && file[q..e][7..7 + n] == file[q + 7..q + 7 + n] && file[q..e][7 + n..] == file[q + 7 + n..e]
      && [file[q + 6]] + file[q + 7..q + 7 + n] == file[q + 6..q + 7 + n]
  {
    if q + 7 + n <= e {
      SliceIn(file, q, e, 7, 7 + n);
      SliceIn(file, q, e, 7 + n, e - q);
      assert file[q..e][7 + n..] == file[q..e][7 + n..e - q];
    }
  }

  lemma ChecksumIff(crc: Crc, file: Bytes, q: nat)
    requires q + 7 <= |file| && q + 7 + LengthAt(file, q) <= |file|
    ensures crc(file[q + 6..q + 7 + LengthAt(file, q)]) == Unmask(DecodeFixed32(file[q..])) <==>
            ChecksumOk(crc, file, q)
  {
    MaskUnmask(DecodeFixed32(file[q..]));
    UnmaskMask(crc(file[q + 6..q + 7 + LengthAt(file, q)]));
  }

  lemma ParseIsEvent(crc: Crc, file: Bytes, d: Cursor, q: nat)
    requires q + 7 <= d.end == EndOf(file, q) && d.buffer == file[q..d.end] && (d.eof <==> d.end % BLOCK != 0)
    ensures var r := ParsePhysical(crc, d);
      && Event(r.kind, r.payload, r.reported) == EventAt(crc, file, q)
      && PlaceAfter(crc, file, q) <= d.end
      && (r.kind != 5 ==> r.next == Cursor(d.end, file[PlaceAfter(crc, file, q)..d.end], d.eof))
  {
    HeaderBytes(file, q, d.end, LengthAt(file, q));
    if q + 7 + LengthAt(file, q) <= d.end {
      ChecksumIff(crc, file, q);
    }
  }

  /** A physical read is what stands at the next header, and leaves the reader behind it. */
  lemma ReadIsEvent(crc: Crc, file: Bytes, c: Cursor, p: nat, q: nat)
    requires InSync(file, c, p) && q == HeaderAfter(file, p)
    ensures var r := ReadPhysical(crc, file, c);
      if q + 7 > |file| then r.kind == 5 && !r.reported
      else
        && Event(r.kind, r.payload, r.reported) == EventAt(crc, file, q)
        && (r.kind != 5 ==> InSync(file, r.next, PlaceAfter(crc, file, q)))
  {
    var d := LooksAt(crc, file, c, p, q);
    if q + 7 <= |file| {
      ParseIsEvent(crc, file, d, q);
    }
  }

  // ---- Exactly which records and complaints a file gives ----

  /** Event j starts a record, and up to i only middles follow. */
  ghost predicate Begins(es: seq<Event>, j: int, i: int) {
    0 <= j < i <= |es| && es[j].kind == 2 && forall k :: j < k < i ==> es[k].kind == 3
  }

  function Payloads(es: seq<Event>, j: nat, i: nat): Bytes
    requires i <= |es|
  {
    if j >= i then [] else Payloads(es, j, i - 1) + es[i - 1].payload
  }

  /** A record ends at event i: a full one, or the last fragment of one that has begun. */
  ghost predicate RecordAt(es: seq<Event>, i: int, b: Bytes) {
    && 0 <= i < |es|
    && (|| (es[i].kind == 1 && b == es[i].payload)
        || (es[i].kind == 4 && exists j :: Begins(es, j, i) && b == Payloads(es, j, i + 1)))
  }

  /** The event does not fit what came before it: a new start while a record with some bytes is
      open, a middle or last fragment with no start, a bad record inside one, or no known type. */
  ghost predicate OutOfPlace(es: seq<Event>, i: int) {
    && 0 <= i < |es|
    && (|| ((es[i].kind == 1 || es[i].kind == 2) && exists j :: Begins(es, j, i) && Payloads(es, j, i) != [])
        || ((es[i].kind == 3 || es[i].kind == 4) && !exists j :: Begins(es, j, i))
        || (es[i].kind == 6 && exists j :: Begins(es, j, i))
        || es[i].kind == 0 || es[i].kind > 6)
  }

  /** One complaint for each event that is reported and one for each that is out of place. */
  ghost function Complaints(es: seq<Event>, i: nat): nat
    decreases |es| - i
  {
    if i >= |es| then 0
    else (if es[i].reported then 1 else 0) + (if OutOfPlace(es, i) then 1 else 0) + Complaints(es, i + 1)
  }

  /** The records are those that end at some event from i on, in order. */
  ghost predicate Yields(es: seq<Event>, i: nat, records: seq<Bytes>)
    decreases |es| - i
  {
    if i >= |es| then records == []
    else if exists b :: RecordAt(es, i, b) then
      records != [] && RecordAt(es, i, records[0]) && Yields(es, i + 1, records[1..])
    else Yields(es, i + 1, records)
  }

  /** What the loop of ReadRecord holds before event i. */
  ghost predicate Holding(es: seq<Event>, i: nat, scratch: Bytes, inFragment: bool) {
    && i <= |es| && (inFragment <==> exists j :: Begins(es, j, i))
    && forall j :: Begins(es, j, i) ==> scratch == Payloads(es, j, i)
  }

  lemma BeginsStep(es: seq<Event>, j: int, i: nat)
    requires i < |es|
    ensures Begins(es, j, i + 1) <==> (j == i && es[i].kind == 2) || (Begins(es, j, i) && es[i].kind == 3)
  {
  }

  lemma HoldsStart(es: seq<Event>, i: nat)
    requires i < |es| && es[i].kind == 2
    ensures Holding(es, i + 1, es[i].payload, true)
  {
    assert Begins(es, i, i + 1) && Payloads(es, i, i) + es[i].payload == es[i].payload;
    var n := i + 1;
    forall j | Begins(es, j, n) ensures j == i {
      BeginsStep(es, j, i);
    }
  }

  lemma HoldsMiddle(es: seq<Event>, i: nat, scratch: Bytes)
    requires i < |es| && es[i].kind == 3 && Holding(es, i, scratch, true)
    ensures Holding(es, i + 1, scratch + es[i].payload, true)
  {
    var j :| Begins(es, j, i);
    assert Begins(es, j, i + 1);
    var n := i + 1;
    forall k | Begins(es, k, n) ensures Begins(es, k, i) {
      BeginsStep(es, k, i);
    }
  }

  lemma HoldsNothing(es: seq<Event>, i: nat, scratch: Bytes, inFragment: bool, rest: Bytes)
    requires i < |es| && es[i].kind != 2 && Holding(es, i, scratch, inFragment)
    requires es[i].kind == 3 ==> !inFragment
    ensures Holding(es, i + 1, rest, false)
  {
    var n := i + 1;
    forall k ensures !Begins(es, k, n) {
      BeginsStep(es, k, i);
    }
  }

  /** What ReadRecord does with one event is right. */
  lemma AssembleIsRight(es: seq<Event>, i: nat, scratch: Bytes, inFragment: bool)
    requires i < |es| && Holding(es, i, scratch, inFragment) && es[i].kind != 5
    ensures var a := Assemble(es[i].kind, es[i].payload, scratch, inFragment);
      && a.reports == (if OutOfPlace(es, i) then 1 else 0)
      && (a.GoesOn? ==> Holding(es, i + 1, a.scratch, a.inFragment) && !exists b :: RecordAt(es, i, b))
      && (a.Returns? ==> a.record.Some? && RecordAt(es, i, a.record.value) && Holding(es, i + 1, [], false))
  {
    if es[i].kind == 2 {
      HoldsStart(es, i);
    } else if es[i].kind == 3 && inFragment {
      HoldsMiddle(es, i, scratch);
    } else {
      HoldsNothing(es, i, scratch, inFragment, []);
      HoldsNothing(es, i, scratch, inFragment, scratch);
    }
  }

  /** What the rest of the file gives to a reader in the middle of ReadRecord. */
  function Rest(crc: Crc, file: Bytes, c: Cursor, scratch: Bytes, inFragment: bool): Replay
    requires c.end <= |file|
  {
    var r := ReadLogical(crc, file, c, scratch, inFragment);
    if r.record.None? then Replay([], r.reports)
    else
      var more := ReadAll(crc, file, r.next);
      Replay([r.record.value] + more.records, r.reports + more.reports)
  }

  lemma RestStep(crc: Crc, file: Bytes, c: Cursor, scratch: Bytes, inFragment: bool)
    requires c.end <= |file|
    ensures var p := ReadPhysical(crc, file, c); var a := Assemble(p.kind, p.payload, scratch, inFragment);
      Rest(crc, file, c, scratch, inFragment) ==
      if a.GoesOn? then
        var more := Rest(crc, file, p.next, a.scratch, a.inFragment);
        Replay(more.records, a.reports + Report(p.reported) + more.reports)
      else if a.record.None? then Replay([], a.reports + Report(p.reported))
      else
        var more := Rest(crc, file, p.next, [], false);
        Replay([a.record.value] + more.records, a.reports + Report(p.reported) + more.reports)
  {
  }

  /** What is right from event i on, given what is right from the next one on. */
  lemma StepIsRight(es: seq<Event>, i: nat, a: Assembly, more: Replay, r: Replay)
    requires i < |es| && a.reports == (if OutOfPlace(es, i) then 1 else 0)
    requires a.GoesOn? ==> !exists b :: RecordAt(es, i, b)
    requires a.Returns? ==> a.record.Some? && RecordAt(es, i, a.record.value)
    requires Yields(es, i + 1, more.records) && more.reports == Complaints(es, i + 1)
    requires r.reports == a.reports + Report(es[i].reported) + more.reports
    requires r.records == if a.GoesOn? then more.records else [a.record.value] + more.records
    ensures Yields(es, i, r.records) && r.reports == Complaints(es, i)
  {
    if a.Returns? {
      assert r.records[1..] == more.records;
    }
  }

  lemma {:induction false} RestExact(crc: Crc, file: Bytes, c: Cursor, p: nat, es: seq<Event>, i: nat,
                                     scratch: Bytes, inFragment: bool)
    requires InSync(file, c, p) && Holding(es, i, scratch, inFragment) && es[i..] == Scan(crc, file, p)
    ensures var r := Rest(crc, file, c, scratch, inFragment);
      Yields(es, i, r.records) && r.reports == Complaints(es, i)
    decreases |file| - p
  {
    var q := HeaderAfter(file, p);
    var r := ReadPhysical(crc, file, c);
    ReadIsEvent(crc, file, c, p, q);
    RestStep(crc, file, c, scratch, inFragment);
    if r.kind != 5 {
      var p' := PlaceAfter(crc, file, q);
      assert es[i] == EventAt(crc, file, q) && es[i + 1..] == es[i..][1..] == Scan(crc, file, p');
      AssembleIsRight(es, i, scratch, inFragment);
      var a := Assemble(r.kind, r.payload, scratch, inFragment);
      var scratch', inFragment' := if a.GoesOn? then a.scratch else [], a.GoesOn? && a.inFragment;
      RestExact(crc, file, r.next, p', es, i + 1, scratch', inFragment');
      StepIsRight(es, i, a, Rest(crc, file, r.next, scratch', inFragment'), Rest(crc, file, c, scratch, inFragment));
    }
  }

  /** For every file, the records read and the number of complaints are exactly those of the
      fragments that stand in it. */
  lemma ReadAllExact(crc: Crc, file: Bytes)
    ensures var es := Scan(crc, file, 0); var r := ReadAll(crc, file, START);
      Yields(es, 0, r.records) && r.reports == Complaints(es, 0)
  {
    RestExact(crc, file, START, 0, Scan(crc, file, 0), 0, [], false);
  }

  lemma EventIsIntact(crc: Crc, file: Bytes, q: nat)
    requires q + 7 <= |file|
    ensures PlaceAfter(crc, file, q) > q
    ensures var e := EventAt(crc, file, q);
      e.kind != 5 && e.kind != 6 ==> Intact(crc, file, q, e.kind, e.payload)
  {
  }

  /** The fragments among the events stand intact in the file, in its order from p on. */
  ghost predicate Standing(crc: Crc, file: Bytes, p: nat, es: seq<Event>, at: seq<nat>) {
    && |at| == |es| && (forall i :: 0 <= i < |at| ==> p <= at[i])
    && (forall i, j :: 0 <= i < j < |at| ==> at[i] < at[j])
    && forall i :: 0 <= i < |es| && es[i].kind != 6 ==> Intact(crc, file, at[i], es[i].kind, es[i].payload)
  }

  lemma StandingMore(crc: Crc, file: Bytes, p: nat, q: nat, e: Event, p': nat, es: seq<Event>, at: seq<nat>)
    requires p <= q < p' && (e.kind != 6 ==> Intact(crc, file, q, e.kind, e.payload))
    requires Standing(crc, file, p', es, at)
    ensures Standing(crc, file, p, [e] + es, [q] + at)
  {
  }

  lemma {:induction false} ScanIsIntact(crc: Crc, file: Bytes, p: nat) returns (at: seq<nat>)
    ensures Standing(crc, file, p, Scan(crc, file, p), at)
    decreases |file| - p
  {
    var q := HeaderAfter(file, p);
    if q + 7 > |file| || EventAt(crc, file, q).kind == 5 {
      at := [];
    } else {
      var p' := PlaceAfter(crc, file, q);
      at := ScanIsIntact(crc, file, p');
      EventIsIntact(crc, file, q);
      StandingMore(crc, file, p, q, EventAt(crc, file, q), p', Scan(crc, file, p'), at);
      at := [q] + at;
    }
  }

  // ---- How the writer lays a record out ----

  function Joined(parts: seq<Bytes>): Bytes {
    if parts == [] then [] else parts[0] + Joined(parts[1..])
  }

  /** 1 for a whole record, 2 for its first fragment, 4 for its last and 3 for those between. */
  function Kind(first: bool, last: bool): nat {
    if first then if last then 1 else 2 else if last then 4 else 3
  }

  /** The parts stand intact one behind the other, and each but the last fills its block. */
  ghost predicate Stand(crc: Crc, file: Bytes, begin: bool, at: seq<nat>, parts: seq<Bytes>)
    requires |at| == |parts|
  {
    && (forall i :: 0 <= i < |at| ==> Intact(crc, file, at[i], Kind(begin && i == 0, i == |at| - 1), parts[i]))
    && forall i :: 0 < i < |at| ==> at[i] % 32768 == 0 && at[i] == at[i - 1] + 7 + |parts[i - 1]|
  }

  /** The first part stands at p unless fewer than seven bytes are left there, which are then zero. */
  ghost predicate FirstAt(file: Bytes, p: nat, q: nat) {
    && q == (if p % 32768 <= 32761 then p else p - p % 32768 + 32768)
    && forall k :: p <= k < q && k < |file| ==> file[k] == 0
  }

  ghost predicate LaidOut(crc: Crc, file: Bytes, p: nat, record: Bytes, begin: bool, at: seq<nat>, parts: seq<Bytes>) {
    && |at| == |parts| > 0 && Joined(parts) == record && FirstAt(file, p, at[0])
    && Stand(crc, file, begin, at, parts)
  }

  lemma PhysicalIsIntact(crc: Crc, file: Bytes, p: nat, t: byte, payload: Bytes)
    requires p % BLOCK + HEADER + |payload| <= BLOCK && Holds(file, p, Physical(crc, t, payload))
    ensures Intact(crc, file, p, t, payload)
  {
    var b := Physical(crc, t, payload);
    var m := Mask(crc([t] + payload));
    assert forall i :: 0 <= i < |b| ==> file[p + i] == file[p..p + |b|][i] == b[i];
    assert b == Fixed32(m) + ([|payload| % 256, |payload| / 256, t] + payload);
    SliceIn(file, p, p + |b|, 7, |b|);
    SliceIn(file, p, p + |b|, 6, |b|);
    assert b[7..|b|] == payload && b[6..|b|] == [t] + payload;
    Fixed32RoundTrip(m);
    assert DecodeFixed32(file[p..]) == m;
  }

  lemma LaidOutSwitch(crc: Crc, file: Bytes, p: nat, n: nat, record: Bytes, begin: bool,
                      at: seq<nat>, parts: seq<Bytes>)
    requires p % 32768 > 32761 && n == 32768 - p % 32768 && Holds(file, p, Zeros(n))
    requires LaidOut(crc, file, p + n, record, begin, at, parts)
    ensures LaidOut(crc, file, p, record, begin, at, parts)
  {
    Log.BlockEnd(p);
    assert forall k :: p <= k < p + n ==> file[k] == file[p..p + n][k - p] == 0;
  }

  lemma LaidOutOne(crc: Crc, file: Bytes, p: nat, record: Bytes, begin: bool)
    requires p % 32768 <= 32761 && Intact(crc, file, p, Kind(begin, true), record)
    ensures LaidOut(crc, file, p, record, begin, [p], [record])
  {
    assert [record][1..] == [];
  }

  lemma StandMore(crc: Crc, file: Bytes, p: nat, part: Bytes, begin: bool, at: seq<nat>, parts: seq<Bytes>)
    requires |at| == |parts| > 0 && Stand(crc, file, false, at, parts)
    requires Intact(crc, file, p, Kind(begin, false), part) && at[0] == p + 7 + |part| && at[0] % 32768 == 0
    ensures Stand(crc, file, begin, [p] + at, [part] + parts)
  {
  }

  lemma LaidOutMore(crc: Crc, file: Bytes, p: nat, n: nat, record: Bytes, begin: bool, at: seq<nat>, parts: seq<Bytes>)
    requires p % 32768 <= 32761 && n < |record| && Intact(crc, file, p, Kind(begin, false), record[..n])
    requires (p + 7 + n) % 32768 == 0 && LaidOut(crc, file, p + 7 + n, record[n..], false, at, parts)
    ensures LaidOut(crc, file, p, record, begin, [p] + at, [record[..n]] + parts)
  {
    var parts' := [record[..n]] + parts;
    assert parts'[1..] == parts && record[..n] + record[n..] == record;
    StandMore(crc, file, p, record[..n], begin, at, parts);
  }

  lemma HoldsZeros(crc: Crc, file: Bytes, p: nat, n: nat, record: Bytes, begin: bool)
    requires Holds(file, p, Fragments(crc, p, record, begin)) && n == BLOCK - p % BLOCK < HEADER
    ensures Holds(file, p, Zeros(n)) && Holds(file, p + n, Fragments(crc, p + n, record, begin))
  {
    FragmentsSwitch(crc, p, record, begin, Zeros(n));
    HoldsSplit(file, p, Zeros(n), Fragments(crc, p + n, record, begin), p + n);
  }

  lemma HoldsFragment(crc: Crc, file: Bytes, p: nat, n: nat, record: Bytes, begin: bool)
    requires Holds(file, p, Fragments(crc, p, record, begin)) && BLOCK - p % BLOCK >= HEADER
    requires n == FragmentLength(p, record)
    ensures Intact(crc, file, p, Kind(begin, n == |record|), record[..n])
    ensures n < |record| ==>
      (p + 7 + n) % 32768 == 0 && Holds(file, p + 7 + n, Fragments(crc, p + 7 + n, record[n..], false))
  {
    var head := Physical(crc, FragmentType(begin, n == |record|), record[..n]);
    FragmentsStep(crc, p, record, begin, n, head);
    if n < |record| {
      FullBlock(p, n);
      HoldsSplit(file, p, head, Fragments(crc, p + 7 + n, record[n..], false), p + 7 + n);
    }
    PhysicalIsIntact(crc, file, p, FragmentType(begin, n == |record|), record[..n]);
  }

  lemma {:induction false} LaysOutFrom(crc: Crc, file: Bytes, p: nat, record: Bytes, begin: bool)
    returns (at: seq<nat>, parts: seq<Bytes>)
    requires Holds(file, p, Fragments(crc, p, record, begin)) && BLOCK - p % BLOCK >= HEADER
    ensures LaidOut(crc, file, p, record, begin, at, parts)
    decreases |record|, Phase(p)
  {
    var n := FragmentLength(p, record);
    HoldsFragment(crc, file, p, n, record, begin);
    if n == |record| {
      assert record[..n] == record;
      LaidOutOne(crc, file, p, record, begin);
      at, parts := [p], [record];
    } else {
      at, parts := LaysOutFrom(crc, file, p + 7 + n, record[n..], false);
      LaidOutMore(crc, file, p, n, record, begin, at, parts);
      at, parts := [p] + at, [record[..n]] + parts;
    }
  }

  /** Every record is written like that, wherever the file ends. */
  lemma WriterLaysOut(crc: Crc, file: Bytes, p: nat, record: Bytes, begin: bool)
    returns (at: seq<nat>, parts: seq<Bytes>)
    requires Holds(file, p, Fragments(crc, p, record, begin))
    ensures LaidOut(crc, file, p, record, begin, at, parts)
  {
    if BLOCK - p % BLOCK >= HEADER {
      at, parts := LaysOutFrom(crc, file, p, record, begin);
    } else {
      var n := BLOCK - p % BLOCK;
      HoldsZeros(crc, file, p, n, record, begin);
      Log.BlockEnd(p);
      at, parts := LaysOutFrom(crc, file, p + n, record, begin);
      LaidOutSwitch(crc, file, p, n, record, begin, at, parts);
    }
  }

  // ---- Fragments of a type that no reader knows ----

  lemma ScanIntact(crc: Crc, file: Bytes, q: nat, t: nat, payload: Bytes)
    requires Intact(crc, file, q, t, payload) && (t > 0 || payload != [])
    ensures Scan(crc, file, q) ==
            if t == 5 then [] else [Event(t, payload, false)] + Scan(crc, file, q + 7 + |payload|)
  {
  }

  lemma ScanTwo(crc: Crc, file: Bytes, t: nat, a: Bytes, b: Bytes)
    requires Intact(crc, file, 0, t, a) && (t > 0 || a != []) && Intact(crc, file, 7 + |a|, 1, b)
    requires |file| == 14 + |a| + |b| <= 32768
    ensures Scan(crc, file, 0) == if t == 5 then [] else [Event(t, a, false), Event(1, b, false)]
  {
    ScanIntact(crc, file, 0, t, a);
    ScanIntact(crc, file, 7 + |a|, 1, b);
    assert Scan(crc, file, |file|) == [];
  }

  lemma TwoEvents(es: seq<Event>, t: nat, a: Bytes, b: Bytes, records: seq<Bytes>)
    requires es == [Event(t, a, false), Event(1, b, false)] && (t == 0 || t > 5) && Yields(es, 0, records)
    ensures records == [b] && Complaints(es, 0) == if t == 6 then 0 else 1
  {
    assert !exists x :: RecordAt(es, 0, x);
    assert RecordAt(es, 1, b);
    assert Yields(es, 2, records[1..]) && Complaints(es, 2) == 0;
    assert !exists j :: Begins(es, j, 0);
    assert !exists j :: Begins(es, j, 1);
  }

  /** A fragment of an unknown type and a whole record behind it: the record is read exactly if the
      type is not 5, and the fragment is reported exactly if it is not 5 or 6. */
  lemma UnknownType(crc: Crc, t: byte, a: Bytes, b: Bytes)
    requires (t == 0 && a != []) || t > 4
    requires 14 + |a| + |b| <= 32768
    ensures ReadAll(crc, Physical(crc, t, a) + Physical(crc, 1, b), START) ==
            Replay(if t == 5 then [] else [b], if t == 5 || t == 6 then 0 else 1)
  {
    var file := Physical(crc, t, a) + Physical(crc, 1, b);
    assert file[0..7 + |a|] == Physical(crc, t, a) && file[7 + |a|..|file|] == Physical(crc, 1, b);
    PhysicalIsIntact(crc, file, 0, t, a);
    PhysicalIsIntact(crc, file, 7 + |a|, 1, b);
    ScanTwo(crc, file, t, a, b);
    ReadAllExact(crc, file);
    if t != 5 {
      TwoEvents(Scan(crc, file, 0), t, a, b, ReadAll(crc, file, START).records);
    }
  }
}
