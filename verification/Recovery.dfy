/** RecoverLogFile: replaying a log, torn or not, gives back the memtable, batch by batch. */
module Recovery {
  import opened Wrappers
  import opened Coding
  import opened WriteBatches
  import opened Writers
  import Log
  import LogReader
  import LogScan
  import LogTorn

  /** A record as it stands in the log file. */
  function RecordBytes(r: Record): Bytes {
    Encode(r.first % 0x1_0000_0000_0000_0000, r.ops)
  }

  /** Numbers and lengths fit their fields; the count is an int. */
  ghost predicate Fits(r: Record) {
    && r.first + |r.ops| < 0x1_0000_0000_0000_0000 && |r.ops| < 0x8000_0000
    && forall op :: op in r.ops ==> SmallOp(op)
  }

  /** These bytes are read back as that record. */
  ghost predicate Represents(bytes: Bytes, r: Record) {
    |bytes| >= HEADER_SIZE && Decode(bytes) == Contents(r.first, r.ops, true) && DecodeFixed32(bytes[8..]) == |r.ops|
  }

  /** The recovered memtable, the largest sequence number, the reports and the status. */
  datatype Recovered = Recovered(mem: seq<Entry>, maxSequence: nat, reports: nat, ok: bool)

  /** The last number of a batch, in 64-bit arithmetic; the count is an int. */
  function LastNumber(first: nat, count: nat): nat {
    (first + (if count < 0x8000_0000 then count else count - 0x1_0000_0000) - 1) % 0x1_0000_0000_0000_0000
  }

  /** What one record does: the entries it adds, its last number, and whether it is a whole batch. */
  datatype Effect = TooShort | Updates(es: seq<Entry>, last: nat, ok: bool)

  function EffectOf(record: Bytes): Effect {
    if |record| < HEADER_SIZE then TooShort
    else
      var c := Decode(record);
      Updates(Numbered(Record(c.first, c.ops)), LastNumber(c.first, DecodeFixed32(record[8..])), c.ok)
  }

  /** A too short record is reported and skipped; with checks off, a malformed batch only ends
      early. */
  function After(r: Recovered, e: Effect, paranoid: bool): Recovered {
    if e.TooShort? then r.(reports := r.reports + 1, ok := !paranoid)
    else if !e.ok && paranoid then r.(mem := r.mem + e.es, ok := false)
    else r.(mem := r.mem + e.es, maxSequence := if e.last > r.maxSequence then e.last else r.maxSequence)
  }

  method ReplayOne(r0: Recovered, record: Bytes, paranoid: bool) returns (r: Recovered)
    requires r0.ok
    ensures r == After(r0, EffectOf(record), paranoid)
  {
    if |record| < HEADER_SIZE {
      return r0.(reports := r0.reports + 1, ok := !paranoid);
    }
    var ops, ok := Iterate(record);
    var first := DecodeFixed64(record);
    var mem := r0.mem + Numbered(Record(first, ops));
    if !ok && paranoid {
      return r0.(mem := mem, ok := false);
    }
    var lastSeq := LastNumber(first, DecodeFixed32(record[8..]));
    return r0.(mem := mem, maxSequence := if lastSeq > r0.maxSequence then lastSeq else r0.maxSequence);
  }

  /** One round of the loop of RecoverLogFile, and whether it is the last: the reader's reports
      fail the recovery if the checks are on, and so does a malformed batch. */
  function Round(r: Recovered, e: Option<Effect>, reports: nat, paranoid: bool): (Recovered, bool) {
    var r1 := r.(reports := r.reports + reports, ok := r.ok && !(paranoid && reports > 0));
    if e.None? || !r1.ok then (r1, true)
    else
      var r2 := After(r1, e.value, paranoid);
      (r2, !r2.ok && e.value.Updates?)
  }

  function EffectIf(eff: Bytes -> Effect, record: Option<Bytes>): Option<Effect> {
    if record.None? then None else Some(eff(record.value))
  }

  /** A record, and how much the reader has reported on the way to it. */
  datatype Heard = Heard(record: Bytes, reports: nat)

  /** All that is read from a file, and what is reported behind the last record. */
  datatype Session = Session(heard: seq<Heard>, tail: nat)

  function SessionOf(crc: Log.Crc, file: Bytes, c: LogReader.Cursor): Session
    requires c.end <= |file|
    decreases LogReader.Remaining(file, c)
  {
    var l := LogReader.ReadLogical(crc, file, c, [], false);
    if l.record.None? then Session([], l.reports)
    else
      var rest := SessionOf(crc, file, l.next);
      Session([Heard(l.record.value, l.reports)] + rest.heard, rest.tail)
  }

  /** The rounds of the loop. */
  function Rounds(eff: Bytes -> Effect, heard: seq<Heard>, tail: nat, r: Recovered, paranoid: bool): Recovered {
    if heard == [] then Round(r, None, tail, paranoid).0
    else
      var (r', last) := Round(r, Some(eff(heard[0].record)), heard[0].reports, paranoid);
      if last then r' else Rounds(eff, heard[1..], tail, r', paranoid)
  }

  function Reading(crc: Log.Crc, file: Bytes, c: LogReader.Cursor, r: Recovered, paranoid: bool): Recovered
    requires c.end <= |file|
  {
    var s := SessionOf(crc, file, c);
    Rounds(EffectOf, s.heard, s.tail, r, paranoid)
  }

  method RunRound(r: Recovered, record: Option<Bytes>, reports: nat, paranoid: bool) returns (r': Recovered, last: bool)
    ensures (r', last) == Round(r, EffectIf(EffectOf, record), reports, paranoid)
    ensures record.None? ==> last
  {
    r' := r.(reports := r.reports + reports);
    if paranoid && reports > 0 {
      r' := r'.(ok := false);
    }
    if record.None? || !r'.ok {
      return r', true;
    }
    r' := ReplayOne(r', record.value, paranoid);
    last := !r'.ok && |record.value| >= HEADER_SIZE;
  }

  lemma SessionOn(crc: Log.Crc, file: Bytes, c: LogReader.Cursor, l: LogReader.LogicalRead)
    requires c.end <= |file| && l == LogReader.ReadLogical(crc, file, c, [], false)
    ensures SessionOf(crc, file, c) ==
            if l.record.None? then Session([], l.reports)
            else
              var rest := SessionOf(crc, file, l.next);
              Session([Heard(l.record.value, l.reports)] + rest.heard, rest.tail)
  {
  }

  lemma RoundsOn(eff: Bytes -> Effect, h: Heard, rest: seq<Heard>, tail: nat, r: Recovered, paranoid: bool,
                 r': Recovered, last: bool)
    requires (r', last) == Round(r, Some(eff(h.record)), h.reports, paranoid)
    ensures Rounds(eff, [h] + rest, tail, r, paranoid) == if last then r' else Rounds(eff, rest, tail, r', paranoid)
  {
    assert ([h] + rest)[1..] == rest;
  }

  /** One round on a file. */
  lemma ReadingOn(crc: Log.Crc, file: Bytes, c: LogReader.Cursor, l: LogReader.LogicalRead, r: Recovered,
                  paranoid: bool, r': Recovered, last: bool)
    requires c.end <= |file| && l == LogReader.ReadLogical(crc, file, c, [], false)
    requires (r', last) == Round(r, EffectIf(EffectOf, l.record), l.reports, paranoid)
    ensures Reading(crc, file, c, r, paranoid) ==
            if l.record.None? || last then r' else Reading(crc, file, l.next, r', paranoid)
  {
    SessionOn(crc, file, c, l);
    if l.record.Some? {
      var rest := SessionOf(crc, file, l.next);
      RoundsOn(EffectOf, Heard(l.record.value, l.reports), rest.heard, rest.tail, r, paranoid, r', last);
    }
  }

  method ReadRound(reader: LogReader.Reader, r: Recovered, paranoid: bool) returns (r': Recovered, last: bool)
    requires reader.endOfBuffer <= |reader.file|
    modifies reader
    ensures reader.endOfBuffer <= |reader.file|
    ensures Reading(reader.crc, reader.file, old(reader.At()), r, paranoid) ==
            if last then r' else Reading(reader.crc, reader.file, reader.At(), r', paranoid)
    ensures !last ==>
      LogReader.Remaining(reader.file, reader.At()) < LogReader.Remaining(reader.file, old(reader.At()))
  {
    var before := reader.reports;
    ghost var c := reader.At();
    ghost var l := LogReader.ReadLogical(reader.crc, reader.file, c, [], false);
    var record := reader.ReadRecord();
    r', last := RunRound(r, record, reader.reports - before, paranoid);
    ReadingOn(reader.crc, reader.file, c, l, r, paranoid, r', last);
  }

  method RecoverLogFile(crc: Log.Crc, file: Bytes, m: nat, paranoid: bool) returns (r: Recovered)
    ensures r == Recover(crc, file, m, paranoid)
  {
    var reader := new LogReader.Reader(crc, file);
    r := Recovered([], m, 0, true);
    ghost var goal := Recover(crc, file, m, paranoid);
    var last := false;
    while !last
      invariant fresh(reader) && reader.crc == crc && reader.file == file && reader.endOfBuffer <= |file|
      invariant goal == if last then r else Reading(crc, file, reader.At(), r, paranoid)
      decreases !last, LogReader.Remaining(file, reader.At())
    {
      r, last := ReadRound(reader, r, paranoid);
    }
  }

  /** One step per record, in order. */
  function Fold<R>(step: (R, Bytes) -> R, records: seq<Bytes>, n: nat, start: R): R
    requires n <= |records|
  {
    if n == 0 then start else step(Fold(step, records, n - 1, start), records[n - 1])
  }

  function Stepper(eff: Bytes -> Effect, paranoid: bool): (Recovered, Bytes) -> Recovered {
    (r, record) => After(r, eff(record), paranoid)
  }

  function ReplayAll(records: seq<Bytes>, n: nat, maxSequence0: nat, paranoid: bool): Recovered
    requires n <= |records|
  {
    Fold(Stepper(EffectOf, paranoid), records, n, Recovered([], maxSequence0, 0, true))
  }

  lemma {:induction false} FoldPrefix<R>(step: (R, Bytes) -> R, records: seq<Bytes>, n: nat, k: nat, start: R)
    requires n <= k <= |records|
    ensures Fold(step, records[..k], n, start) == Fold(step, records, n, start)
  {
    if n > 0 {
      FoldPrefix(step, records, n - 1, k, start);
    }
  }

  /** What the writer logs for a record represents it. */
  lemma RecordDecodes(r: Record)
    requires Fits(r)
    ensures Represents(RecordBytes(r), r)
  {
    Small64(r.first);
    DecodeEncode(r.first, r.ops);
    HeaderOf(r.first, r.ops);
    Small32(|r.ops|);
  }

  /** The largest number among records a to b and m. */
  function MaxNumber(log: seq<Record>, a: nat, b: nat, m: nat): nat
    requires a <= b <= |log|
  {
    if a == b then m
    else
      var before := MaxNumber(log, a, b - 1, m);
      var lastSeq := LastNumber(log[b - 1].first, |log[b - 1].ops|);
      if lastSeq > before then lastSeq else before
  }

  lemma AfterRecord(r: Recovered, bytes: Bytes, rec: Record, paranoid: bool)
    requires Represents(bytes, rec) && r.ok
    ensures var lastSeq := LastNumber(rec.first, |rec.ops|);
      After(r, EffectOf(bytes), paranoid) ==
      r.(mem := r.mem + Numbered(rec), maxSequence := if lastSeq > r.maxSequence then lastSeq else r.maxSequence)
  {
  }

  /** What recovery makes of records a to b. */
  ghost function Restored(log: seq<Record>, a: nat, b: nat, m: nat): Recovered
    requires a <= b <= |log|
  {
    Recovered(Entries(log, a, b), MaxNumber(log, a, b, m), 0, true)
  }

  /** The bytes of record b - 1 take what came before it to what comes with it. */
  ghost predicate StepsTo(step: (Recovered, Bytes) -> Recovered, enc: Record -> Bytes, log: seq<Record>, a: nat, b: nat,
                          m: nat)
  {
    a < b <= |log| ==> step(Restored(log, a, b - 1, m), enc(log[b - 1])) == Restored(log, a, b, m)
  }

  ghost predicate AllLead(step: (Recovered, Bytes) -> Recovered, enc: Record -> Bytes, log: seq<Record>, a: nat,
                          m: nat) {
    forall b :: a < b <= |log| ==> StepsTo(step, enc, log, a, b, m)
  }

  lemma RecordSteps(log: seq<Record>, a: nat, b: nat, m: nat, paranoid: bool)
    requires a < b <= |log| && Fits(log[b - 1])
    ensures StepsTo(Stepper(EffectOf, paranoid), RecordBytes, log, a, b, m)
  {
    RecordDecodes(log[b - 1]);
    AfterRecord(Restored(log, a, b - 1, m), RecordBytes(log[b - 1]), log[b - 1], paranoid);
  }

  /** Numbers and lengths of all records from a on fit their fields. */
  ghost predicate AllFit(log: seq<Record>, a: nat) {
    a <= |log| && forall i :: a <= i < |log| ==> Fits(log[i])
  }

  /** The bytes of records a and up. */
  ghost function Mapped(enc: Record -> Bytes, log: seq<Record>, a: nat): (file: seq<Bytes>)
    requires a <= |log|
    ensures |file| == |log| - a && forall i :: 0 <= i < |file| ==> file[i] == enc(log[a + i])
  {
    seq(|log| - a, i requires 0 <= i < |log| - a => enc(log[a + i]))
  }

  /** If the bytes of every record make such a step, those of the first n restore them. */
  lemma {:induction false} FoldRestores(step: (Recovered, Bytes) -> Recovered, enc: Record -> Bytes, log: seq<Record>,
                                        a: nat, n: nat, m: nat)
    requires a + n <= |log| && AllLead(step, enc, log, a, m)
    ensures Fold(step, Mapped(enc, log, a), n, Recovered([], m, 0, true)) == Restored(log, a, a + n, m)
  {
    if n > 0 {
      FoldRestores(step, enc, log, a, n - 1, m);
      assert StepsTo(step, enc, log, a, a + n, m);
    }
  }

  /** The records of the log file, as the writer logged them from record a on. */
  ghost function Logged(log: seq<Record>, a: nat): (file: seq<Bytes>)
    requires a <= |log|
    ensures |file| == |log| - a
  {
    Mapped(RecordBytes, log, a)
  }

  lemma AllStep(log: seq<Record>, a: nat, m: nat, paranoid: bool)
    requires AllFit(log, a)
    ensures AllLead(Stepper(EffectOf, paranoid), RecordBytes, log, a, m)
  {
    forall b | a < b <= |log| ensures StepsTo(Stepper(EffectOf, paranoid), RecordBytes, log, a, b, m) {
      RecordSteps(log, a, b, m, paranoid);
    }
  }

  /** Replaying the first n records of a log gives their entries and their largest number. */
  lemma ReplayIsEntries(log: seq<Record>, a: nat, n: nat, b: nat, m: nat, paranoid: bool)
    requires AllFit(log, a) && b == a + n <= |log|
    ensures ReplayAll(Logged(log, a), n, m, paranoid) == Restored(log, a, b, m)
  {
    AllStep(log, a, m, paranoid);
    FoldRestores(Stepper(EffectOf, paranoid), RecordBytes, log, a, n, m);
  }

  lemma LastIs(first: nat, n: nat, last: nat)
    requires 0 < first + n <= last + 1 && n < 0x8000_0000
    ensures LastNumber(first, n) <= last
  {
  }

  lemma {:induction false} MaxNumberBound(log: seq<Record>, a: nat, b: nat, m: nat, last: nat)
    requires a <= b <= |log| && m <= last && forall i :: a <= i < b ==> log[i].first + |log[i].ops| <= last + 1
    requires forall i :: a <= i < b ==> Fits(log[i]) && log[i].first > 0
    ensures MaxNumber(log, a, b, m) <= last
    decreases b
  {
    if a < b {
      MaxNumberBound(log, a, b - 1, m, last);
      LastIs(log[b - 1].first, |log[b - 1].ops|, last);
    }
  }

  // ---- Whole files ----

  /** What RecoverLogFile makes of a log file. */
  function Recover(crc: Log.Crc, file: Bytes, m: nat, paranoid: bool): Recovered {
    Reading(crc, file, LogReader.START, Recovered([], m, 0, true), paranoid)
  }

  predicate Fine(e: Effect) {
    e.Updates? && e.ok
  }

  ghost predicate AllFine(eff: Bytes -> Effect, records: seq<Bytes>) {
    forall i :: 0 <= i < |records| ==> Fine(eff(records[i]))
  }

  lemma {:induction false} FoldFront<R>(step: (R, Bytes) -> R, record: Bytes, rest: seq<Bytes>, n: nat, start: R)
    requires n <= |rest|
    ensures Fold(step, [record] + rest, n + 1, start) == Fold(step, rest, n, step(start, record))
  {
    if n > 0 {
      FoldFront(step, record, rest, n - 1, start);
    }
  }

  /** Reports do not get in the way of the records. */
  lemma {:induction false} FoldReports(eff: Bytes -> Effect, records: seq<Bytes>, n: nat, r: Recovered, k: nat)
    requires n <= |records|
    ensures Fold(Stepper(eff, false), records, n, r.(reports := r.reports + k)) ==
            var back := Fold(Stepper(eff, false), records, n, r); back.(reports := back.reports + k)
  {
    if n > 0 {
      FoldReports(eff, records, n - 1, r, k);
    }
  }

  ghost function Counted(eff: Bytes -> Effect, records: seq<Bytes>, r: Recovered, reports: nat): Recovered {
    var back := Fold(Stepper(eff, false), records, |records|, r);
    back.(reports := back.reports + reports)
  }

  /** Nothing to complain about. */
  ghost predicate Clean(eff: Bytes -> Effect, all: LogTorn.Replay) {
    all.reports == 0 && AllFine(eff, all.records)
  }

  lemma CountedFront(eff: Bytes -> Effect, record: Bytes, rest: seq<Bytes>, r: Recovered, a: nat, b: nat)
    ensures Counted(eff, [record] + rest, r, a + b) ==
            Counted(eff, rest, After(r.(reports := r.reports + a), eff(record), false), b)
  {
    FoldFront(Stepper(eff, false), record, rest, |rest|, r);
    FoldReports(eff, rest, |rest|, After(r, eff(record), false), a);
  }

  lemma CleanFront(eff: Bytes -> Effect, record: Bytes, rest: LogTorn.Replay, reports: nat)
    ensures Clean(eff, LogTorn.Replay([record] + rest.records, reports + rest.reports)) <==>
            reports == 0 && Fine(eff(record)) && Clean(eff, rest)
  {
    var records := [record] + rest.records;
    assert records[0] == record && records[1..] == rest.records;
    assert forall i :: 0 <= i < |rest.records| ==> rest.records[i] == records[i + 1];
  }

  /** With the checks off every record counts. With them on, the same if there is nothing to
      complain about, and otherwise the recovery fails. */
  ghost predicate Outcome(eff: Bytes -> Effect, all: LogTorn.Replay, r: Recovered, paranoid: bool, out: Recovered) {
    if !paranoid || Clean(eff, all) then out == Counted(eff, all.records, r, all.reports) else !out.ok
  }

  lemma OutcomeStep(eff: Bytes -> Effect, record: Bytes, rest: LogTorn.Replay, reports: nat, r: Recovered,
                    paranoid: bool, out: Recovered)
    requires !paranoid || (reports == 0 && Fine(eff(record)))
    requires Outcome(eff, rest, After(r.(reports := r.reports + reports), eff(record), false), paranoid, out)
    ensures Outcome(eff, LogTorn.Replay([record] + rest.records, reports + rest.reports), r, paranoid, out)
  {
    CountedFront(eff, record, rest.records, r, reports, rest.reports);
    CleanFront(eff, record, rest, reports);
  }

  /** All records, and all reports. */
  function AllOf(heard: seq<Heard>, tail: nat): LogTorn.Replay {
    if heard == [] then LogTorn.Replay([], tail)
    else
      var rest := AllOf(heard[1..], tail);
      LogTorn.Replay([heard[0].record] + rest.records, heard[0].reports + rest.reports)
  }

  lemma {:induction false} SessionIsReadAll(crc: Log.Crc, file: Bytes, c: LogReader.Cursor)
    requires c.end <= |file|
    ensures var s := SessionOf(crc, file, c); AllOf(s.heard, s.tail) == LogTorn.ReadAll(crc, file, c)
    decreases LogReader.Remaining(file, c)
  {
    var l := LogReader.ReadLogical(crc, file, c, [], false);
    SessionOn(crc, file, c, l);
    if l.record.Some? {
      SessionIsReadAll(crc, file, l.next);
      var rest := SessionOf(crc, file, l.next);
      assert ([Heard(l.record.value, l.reports)] + rest.heard)[1..] == rest.heard;
    }
  }

  lemma GoodRound(r: Recovered, e: Effect, reports: nat, paranoid: bool)
    requires r.ok && (!paranoid || (reports == 0 && Fine(e)))
    ensures var r' := After(r.(reports := r.reports + reports), e, false);
      Round(r, Some(e), reports, paranoid) == (r', false) && r'.ok
  {
  }

  lemma StaysFailed(eff: Bytes -> Effect, heard: seq<Heard>, tail: nat, r: Recovered)
    requires !r.ok
    ensures !Rounds(eff, heard, tail, r, true).ok
  {
  }

  lemma {:induction false} RoundsAre(eff: Bytes -> Effect, heard: seq<Heard>, tail: nat, r: Recovered, paranoid: bool)
    requires r.ok
    ensures Outcome(eff, AllOf(heard, tail), r, paranoid, Rounds(eff, heard, tail, r, paranoid))
  {
    if heard != [] {
      var h, rest := heard[0], AllOf(heard[1..], tail);
      if !paranoid || (h.reports == 0 && Fine(eff(h.record))) {
        var r' := After(r.(reports := r.reports + h.reports), eff(h.record), false);
        GoodRound(r, eff(h.record), h.reports, paranoid);
        RoundsAre(eff, heard[1..], tail, r', paranoid);
        OutcomeStep(eff, h.record, rest, h.reports, r, paranoid, Rounds(eff, heard[1..], tail, r', paranoid));
      } else {
        CleanFront(eff, h.record, rest, h.reports);
        var (r', last) := Round(r, Some(eff(h.record)), h.reports, true);
        if !last {
          StaysFailed(eff, heard[1..], tail, r');
        }
      }
    }
  }

  lemma ReadingIs(crc: Log.Crc, file: Bytes, m: nat, paranoid: bool)
    ensures Outcome(EffectOf, LogTorn.ReadAll(crc, file, LogReader.START), Recovered([], m, 0, true), paranoid,
                    Recover(crc, file, m, paranoid))
  {
    SessionIsReadAll(crc, file, LogReader.START);
    var s := SessionOf(crc, file, LogReader.START);
    RoundsAre(EffectOf, s.heard, s.tail, Recovered([], m, 0, true), paranoid);
  }

  // ---- Any file ----

  /** A record long enough for a header, whose updates can all be read and are as many as it says. */
  predicate WholeBatch(b: Bytes) {
    |b| >= 12 && Parse(b[12..]).ok && |Parse(b[12..]).ops| == LittleEndian(b[8..12])
  }

  /** What a record stands for: its first number in 8 bytes, its count in 4, and the updates that
      can be read behind them. */
  function RecordDoes(b: Bytes): Effect {
    if |b| < 12 then TooShort
    else
      var first, count := LittleEndian(b[..8]), LittleEndian(b[8..12]);
      Updates(Numbered(Record(first, Parse(b[12..]).ops)), LastNumber(first, count), WholeBatch(b))
  }

  lemma EffectIs(b: Bytes)
    ensures EffectOf(b) == RecordDoes(b)
  {
    if |b| >= 12 {
      FixedAreLittleEndian(b);
      WordIs(b, 8);
    }
  }

  /** What the first n records restore: their updates, their largest last number or m, and a report
      for each that is too short. */
  ghost function Restoring(eff: Bytes -> Effect, records: seq<Bytes>, n: nat, m: nat): Recovered
    requires n <= |records|
  {
    if n == 0 then Recovered([], m, 0, true)
    else
      var before, e := Restoring(eff, records, n - 1, m), eff(records[n - 1]);
      match e
      case TooShort => before.(reports := before.reports + 1)
      case Updates(es, last, _) =>
        before.(mem := before.mem + es, maxSequence := if last > before.maxSequence then last else before.maxSequence)
  }

  lemma {:induction false} FoldIs(eff: Bytes -> Effect, records: seq<Bytes>, n: nat, m: nat)
    requires n <= |records|
    ensures Fold(Stepper(eff, false), records, n, Recovered([], m, 0, true)) == Restoring(eff, records, n, m)
    ensures Restoring(eff, records, n, m).ok
  {
    if n > 0 {
      FoldIs(eff, records, n - 1, m);
    }
  }

  lemma {:induction false} RestoringSame(eff: Bytes -> Effect, eff': Bytes -> Effect, records: seq<Bytes>, n: nat,
                                         m: nat)
    requires n <= |records| && forall i :: 0 <= i < |records| ==> eff(records[i]) == eff'(records[i])
    ensures Restoring(eff, records, n, m) == Restoring(eff', records, n, m)
  {
    if n > 0 {
      RestoringSame(eff, eff', records, n - 1, m);
    }
  }

  lemma FineIffWhole(b: Bytes)
    ensures Fine(EffectOf(b)) <==> WholeBatch(b)
  {
    EffectIs(b);
  }

  ghost predicate AllWhole(records: seq<Bytes>) {
    forall i :: 0 <= i < |records| ==> WholeBatch(records[i])
  }

  lemma CleanIff(all: LogTorn.Replay)
    ensures Clean(EffectOf, all) <==> all.reports == 0 && AllWhole(all.records)
  {
    forall i | 0 <= i < |all.records| ensures Fine(EffectOf(all.records[i])) <==> WholeBatch(all.records[i]) {
      FineIffWhole(all.records[i]);
    }
  }

  lemma OutcomeIs(all: LogTorn.Replay, m: nat, paranoid: bool, out: Recovered)
    requires Outcome(EffectOf, all, Recovered([], m, 0, true), paranoid, out)
    ensures if paranoid && !(all.reports == 0 && AllWhole(all.records)) then !out.ok
            else
              var back := Restoring(RecordDoes, all.records, |all.records|, m);
              back.ok && out == back.(reports := back.reports + all.reports)
  {
    CleanIff(all);
    FoldIs(EffectOf, all.records, |all.records|, m);
    forall i | 0 <= i < |all.records| ensures EffectOf(all.records[i]) == RecordDoes(all.records[i]) {
      EffectIs(all.records[i]);
    }
    RestoringSame(EffectOf, RecordDoes, all.records, |all.records|, m);
  }

  /** Recovery of any file. With the checks off it never fails and restores what can be read. With
      them on it does the same unless there is a complaint or a record is not a whole batch. */
  lemma RecoverAnyFile(crc: Log.Crc, file: Bytes, m: nat, paranoid: bool) returns (records: seq<Bytes>)
    ensures LogScan.Yields(LogScan.Scan(crc, file, 0), 0, records)
    ensures var n := LogScan.Complaints(LogScan.Scan(crc, file, 0), 0); var out := Recover(crc, file, m, paranoid);
      if paranoid && !(n == 0 && AllWhole(records)) then !out.ok
      else
        var back := Restoring(RecordDoes, records, |records|, m);
        back.ok && out == back.(reports := back.reports + n)
  {
    var all := LogTorn.ReadAll(crc, file, LogReader.START);
    records := all.records;
    LogScan.ReadAllExact(crc, file);
    ReadingIs(crc, file, m, paranoid);
    OutcomeIs(all, m, paranoid, Recover(crc, file, m, paranoid));
  }

  // ---- Files the writer left ----

  lemma RecoverClean(crc: Log.Crc, file: Bytes, m: nat, paranoid: bool, records: seq<Bytes>)
    requires LogTorn.ReadAll(crc, file, LogReader.START) == LogTorn.Replay(records, 0) && AllFine(EffectOf, records)
    ensures Recover(crc, file, m, paranoid) == ReplayAll(records, |records|, m, false)
  {
    ReadingIs(crc, file, m, paranoid);
  }

  lemma LoggedFine(log: seq<Record>, a: nat, k: nat)
    requires AllFit(log, a) && k <= |Logged(log, a)|
    ensures AllFine(EffectOf, Logged(log, a)[..k])
  {
    forall i | 0 <= i < k ensures Fine(EffectOf(Logged(log, a)[..k][i])) {
      RecordDecodes(log[a + i]);
    }
  }

  /** The bytes of the log file. */
  ghost function LogFile(crc: Log.Crc, log: seq<Record>, a: nat): Bytes
    requires a <= |log|
  {
    Log.Encode(crc, 0, Logged(log, a))
  }

  /** How many bytes records take in a log. */
  ghost function Size(crc: Log.Crc): seq<Bytes> -> nat {
    records => |Log.Encode(crc, 0, records)|
  }

  /** The first k records lie in the first `cut` bytes, and no more of them do. */
  ghost predicate LastInside(size: seq<Bytes> -> nat, records: seq<Bytes>, k: nat, cut: nat) {
    && k <= |records| && size(records[..k]) <= cut
    && (k < |records| ==> cut < size(records[..k + 1]))
  }

  ghost predicate Growing(size: seq<Bytes> -> nat, records: seq<Bytes>) {
    forall n :: 0 <= n <= |records| ==> size(records[..n]) <= size(records)
  }

  lemma SizeGrows(crc: Log.Crc, records: seq<Bytes>)
    ensures Growing(Size(crc), records)
  {
    forall n | 0 <= n <= |records| ensures Size(crc)(records[..n]) <= Size(crc)(records) {
      Log.EncodePrefix(crc, 0, records, n);
    }
  }

  /** After a crash that leaves any prefix of the log file, recovery reports no corruption and
      restores, with their numbers, the batches of the k records wholly inside. */
  lemma CrashRestoresWholeBatches(crc: Log.Crc, log: seq<Record>, a: nat, cut: nat, m: nat, paranoid: bool)
    returns (k: nat, b: nat)
    requires AllFit(log, a) && cut <= |LogFile(crc, log, a)|
    ensures b == a + k <= |log|
    ensures Recover(crc, LogFile(crc, log, a)[..cut], m, paranoid) ==
            Restored(log, a, b, m)
    ensures LastInside(Size(crc), Logged(log, a), k, cut)
  {
    var file := Logged(log, a);
    k := LogTorn.TornLog(crc, file, cut);
    b := a + k;
    ReplayIsEntries(log, a, k, b, m, false);
    LoggedFine(log, a, k);
    RecoverClean(crc, LogFile(crc, log, a)[..cut], m, paranoid, file[..k]);
    FoldPrefix(Stepper(EffectOf, false), file, k, k, Recovered([], m, 0, true));
  }

  /** Only the whole log has room for all its records. */
  lemma WholeHasAll(size: seq<Bytes> -> nat, records: seq<Bytes>, k: nat)
    requires Growing(size, records) && LastInside(size, records, k, size(records))
    ensures k == |records|
  {
  }

  lemma WholeFile(file: Bytes)
    ensures file[..|file|] == file
  {
  }

  /** With the whole file, recovery restores every record. */
  lemma RestartRestoresLog(crc: Log.Crc, log: seq<Record>, a: nat, m: nat, paranoid: bool)
    requires AllFit(log, a)
    ensures Recover(crc, LogFile(crc, log, a), m, paranoid) == Restored(log, a, |log|, m)
  {
    var cut := |LogFile(crc, log, a)|;
    var k, b := CrashRestoresWholeBatches(crc, log, a, cut, m, paranoid);
    WholeFile(LogFile(crc, log, a));
    SizeGrows(crc, Logged(log, a));
    WholeHasAll(Size(crc), Logged(log, a), k);
  }

  /** Sequence numbers start at 1. */
  ghost predicate Positive(s: State) {
    (s.current.Some? ==> s.current.value.first > 0) && forall i :: 0 <= i < |s.log| ==> s.log[i].first > 0
  }

  lemma {:induction false} RunPositive(states: seq<State>, steps: seq<Step>, n: nat)
    requires Run(states, steps) && n < |states|
    ensures Positive(states[n])
  {
    if n > 0 {
      RunPositive(states, steps, n - 1);
      assert Next(states[n - 1], steps[n - 1], states[n]);
    }
  }

  /** In any run, when no write is in progress, recovery from the bytes logged since the last
      memtable switch restores the memtable as it is, and no number above the published one. */
  lemma RestartRestoresMemtable(crc: Log.Crc, states: seq<State>, steps: seq<Step>, n: nat, m: nat, paranoid: bool)
    requires Run(states, steps) && n < |states| && states[n].phase == Free && !states[n].failed
    requires m <= states[n].last && AllFit(states[n].log, states[n].base)
    ensures var back := Recover(crc, LogFile(crc, states[n].log, states[n].base), m, paranoid);
      back.ok && back.reports == 0 && back.mem == states[n].mem && back.maxSequence <= states[n].last
  {
    RunInv(states, steps, n);
    RunPositive(states, steps, n);
    RestartRestoresLog(crc, states[n].log, states[n].base, m, paranoid);
    AtRest(states[n], m);
  }

  lemma AtRest(s: State, m: nat)
    requires Inv(s) && s.phase == Free && !s.failed && m <= s.last && AllFit(s.log, s.base) && Positive(s)
    ensures s.base <= |s.log| && s.mem == Entries(s.log, s.base, |s.log|)
    ensures MaxNumber(s.log, s.base, |s.log|, m) <= s.last
  {
    assert InFlight(s) == [] && Settled(s) == |s.log|;
    MaxNumberBound(s.log, s.base, |s.log|, m, s.last);
  }

  // ---- A failed append ----

  lemma MappedTake(enc: Record -> Bytes, log: seq<Record>, r: Record, a: nat)
    requires a <= |log|
    ensures Mapped(enc, log + [r], a)[..|log| - a] == Mapped(enc, log, a)
  {
  }

  lemma OneMoreInside(size: seq<Bytes> -> nat, records: seq<Bytes>, all: seq<Bytes>, k: nat, cut: nat)
    requires k < |records| <= |all| && all[..|records|] == records && Growing(size, records) && size(records) <= cut
    ensures !LastInside(size, all, k, cut)
  {
    assert all[..k + 1] == records[..k + 1];
  }

  /** With part of one more record at its end, a log has room for its own records and for the
      last one exactly if all of it is there. */
  lemma TornAtEnd(size: seq<Bytes> -> nat, records: seq<Bytes>, all: seq<Bytes>, k: nat, cut: nat)
    requires |all| == |records| + 1 && all[..|records|] == records && LastInside(size, all, k, cut)
    requires Growing(size, records) && size(records) <= cut <= size(all)
    ensures k == if cut == size(all) then |all| else |records|
  {
    if k < |records| {
      OneMoreInside(size, records, all, k, cut);
      assert false;
    } else if k == |records| {
      assert all[..k + 1] == all;
    } else {
      assert all[..k] == all;
    }
  }

  lemma LoggedTake(log: seq<Record>, r: Record, a: nat)
    requires a <= |log|
    ensures Logged(log + [r], a)[..|log| - a] == Logged(log, a)
  {
    MappedTake(RecordBytes, log, r, a);
  }

  /** The number of records inside, if an append that failed left some of its record, or all. */
  ghost function Whole(crc: Log.Crc, log: seq<Record>, r: Record, a: nat, cut: nat): (b: nat)
    requires a <= |log|
    ensures a <= b <= |log| + 1
  {
    if cut == |LogFile(crc, log + [r], a)| then |log| + 1 else |log|
  }

  lemma RoomFor(crc: Log.Crc, log: seq<Record>, r: Record, a: nat, k: nat, cut: nat)
    requires a <= |log| && |LogFile(crc, log, a)| <= cut <= |LogFile(crc, log + [r], a)|
    requires LastInside(Size(crc), Logged(log + [r], a), k, cut)
    ensures a + k == Whole(crc, log, r, a, cut)
  {
    LoggedTake(log, r, a);
    SizeGrows(crc, Logged(log, a));
    TornAtEnd(Size(crc), Logged(log, a), Logged(log + [r], a), k, cut);
  }

  lemma FailedAppendRestart(crc: Log.Crc, log: seq<Record>, r: Record, a: nat, cut: nat, m: nat, paranoid: bool)
    requires a <= |log| && AllFit(log + [r], a)
    requires |LogFile(crc, log, a)| <= cut <= |LogFile(crc, log + [r], a)|
    ensures Recover(crc, LogFile(crc, log + [r], a)[..cut], m, paranoid) ==
            Restored(log + [r], a, Whole(crc, log, r, a, cut), m)
  {
    var k, b := CrashRestoresWholeBatches(crc, log + [r], a, cut, m, paranoid);
    RoomFor(crc, log, r, a, k, cut);
  }

  /** An append of r has failed and has left `cut` bytes in the log file. */
  ghost predicate FailedAppend(crc: Log.Crc, s: State, r: Record, cut: nat) {
    && s.phase.Done? && !s.phase.ok && !s.failed && s.current == Some(r)
    && s.base <= |s.log| && AllFit(s.log + [r], s.base)
    && |LogFile(crc, s.log, s.base)| <= cut <= |LogFile(crc, s.log + [r], s.base)|
  }

  /** What recovery should find then: the memtable, and the record exactly if all of it is there. */
  ghost predicate FoundAfterFailure(crc: Log.Crc, s: State, r: Record, cut: nat, back: Recovered)
    requires s.base <= |s.log|
  {
    && back.ok && back.reports == 0 && back.maxSequence <= s.last + |r.ops|
    && back.mem == s.mem + if cut == |LogFile(crc, s.log + [r], s.base)| then Numbered(r) else []
  }

  lemma WholeFound(crc: Log.Crc, s: State, r: Record, cut: nat, m: nat)
    requires Inv(s) && Positive(s) && FailedAppend(crc, s, r, cut) && m <= s.last
    ensures FoundAfterFailure(crc, s, r, cut,
                              Restored(s.log + [r], s.base, Whole(crc, s.log, r, s.base, cut), m))
  {
    if cut == |LogFile(crc, s.log + [r], s.base)| {
      FoundWith(s, r, m);
    } else {
      FoundWithout(s, r, m);
    }
  }

  lemma FoundWith(s: State, r: Record, m: nat)
    requires Inv(s) && s.phase.Done? && !s.phase.ok && !s.failed && s.current == Some(r) && m <= s.last
    requires AllFit(s.log + [r], s.base) && Positive(s)
    ensures s.base <= |s.log|
    ensures var back := Restored(s.log + [r], s.base, |s.log| + 1, m);
      back.mem == s.mem + Numbered(r) && back.maxSequence <= s.last + |r.ops| && back.reports == 0 && back.ok
  {
    AfterFailure(s, r, m);
  }

  lemma FoundWithout(s: State, r: Record, m: nat)
    requires Inv(s) && s.phase.Done? && !s.phase.ok && !s.failed && s.current == Some(r) && m <= s.last
    requires AllFit(s.log + [r], s.base) && Positive(s)
    ensures s.base <= |s.log|
    ensures var back := Restored(s.log + [r], s.base, |s.log|, m);
      back.mem == s.mem + [] && back.maxSequence <= s.last + |r.ops| && back.reports == 0 && back.ok
  {
    AfterFailure(s, r, m);
  }

  lemma RestartFromFailure(crc: Log.Crc, s: State, r: Record, cut: nat, m: nat, paranoid: bool)
    requires Inv(s) && Positive(s) && FailedAppend(crc, s, r, cut) && m <= s.last
    ensures FoundAfterFailure(crc, s, r, cut,
                              Recover(crc, LogFile(crc, s.log + [r], s.base)[..cut], m, paranoid))
  {
    FailedAppendRestart(crc, s.log, r, s.base, cut, m, paranoid);
    WholeFound(crc, s, r, cut, m);
  }

  /** In any run, right after an append failed: whatever part of the record it left in the file,
      recovery restores the memtable, and the record too exactly if all of it is there. */
  lemma RestartAfterFailedAppend(crc: Log.Crc, states: seq<State>, steps: seq<Step>, n: nat, r: Record, cut: nat,
                                 m: nat, paranoid: bool)
    requires Run(states, steps) && n < |states| && FailedAppend(crc, states[n], r, cut) && m <= states[n].last
    ensures var s := states[n];
      FoundAfterFailure(crc, s, r, cut, Recover(crc, LogFile(crc, s.log + [r], s.base)[..cut], m, paranoid))
  {
    RunInv(states, steps, n);
    RunPositive(states, steps, n);
    RestartFromFailure(crc, states[n], r, cut, m, paranoid);
  }

  lemma AfterFailure(s: State, r: Record, m: nat)
    requires Inv(s) && s.phase.Done? && !s.phase.ok && !s.failed && s.current == Some(r) && m <= s.last
    requires AllFit(s.log + [r], s.base) && Positive(s)
    ensures s.base <= |s.log|
    ensures Entries(s.log + [r], s.base, |s.log|) == s.mem
    ensures Entries(s.log + [r], s.base, |s.log| + 1) == s.mem + Numbered(r)
    ensures MaxNumber(s.log + [r], s.base, |s.log|, m) <= s.last + |r.ops|
    ensures MaxNumber(s.log + [r], s.base, |s.log| + 1, m) <= s.last + |r.ops|
  {
    assert InFlight(s) == [] && Settled(s) == |s.log|;
    EntriesSame(s.log, s.log + [r], s.base, |s.log|);
    MaxNumberBound(s.log + [r], s.base, |s.log|, m, s.last);
    assert Fits((s.log + [r])[|s.log|]);
    LastIs(r.first, |r.ops|, s.last + |r.ops|);
  }
}
