/** The record log: a writer that fragments records over 32 KB blocks, a reader
    that puts them back together, and what a torn file still yields. */
module Log {
  import opened Coding

  const BLOCK := 32768
  const HEADER := 7
  const ZERO_TYPE: byte := 0
  const FULL: byte := 1
  const FIRST: byte := 2
  const MIDDLE: byte := 3
  const LAST: byte := 4
  const EOF := 5
  const BAD := 6

  /** The checksum is a parameter: any deterministic 32-bit function. */
  type Crc = Bytes -> u32

  function Mask(c: u32): u32 {
    (c / 0x8000 + c % 0x8000 * 0x2_0000 + 0xa282ead8) % 0x1_0000_0000
  }

  function Unmask(m: u32): u32 {
    var rot := (m - 0xa282ead8) % 0x1_0000_0000;
    rot / 0x2_0000 + rot % 0x2_0000 * 0x8000
  }

  lemma Unshift(r: u32)
    ensures ((r + 0xa282ead8) % 0x1_0000_0000 - 0xa282ead8) % 0x1_0000_0000 == r
  {
  }

  lemma Halves(high: nat, low: nat)
    requires low < 0x2_0000
    ensures (low + high * 0x2_0000) / 0x2_0000 == high && (low + high * 0x2_0000) % 0x2_0000 == low
  {
  }

  lemma UnmaskMask(c: u32)
    ensures Unmask(Mask(c)) == c
  {
    var high, low := c % 0x8000, c / 0x8000;
    Unshift(low + high * 0x2_0000);
    Halves(high, low);
  }

  /** One physical record: checksum, length, type and payload. */
  function Physical(crc: Crc, t: byte, payload: Bytes): (b: Bytes)
    requires |payload| <= 0xffff
    ensures |b| == HEADER + |payload|
  {
    Fixed32(Mask(crc([t] + payload))) + [|payload| % 256, |payload| / 256, t] + payload
  }

  function FragmentType(begin: bool, end: bool): byte {
    if begin && end then FULL else if begin then FIRST else if end then LAST else MIDDLE
  }

  /** How much of the record fits into the block at file position p. */
  function FragmentLength(p: nat, left: Bytes): (n: nat)
    requires BLOCK - p % BLOCK >= HEADER
    ensures n <= |left| && n <= BLOCK - HEADER - p % BLOCK
  {
    var avail := BLOCK - p % BLOCK - HEADER;
    if |left| < avail then |left| else avail
  }

  function Phase(p: nat): nat {
    if p % BLOCK == 0 then 0 else if BLOCK - p % BLOCK < HEADER then 1 else 2
  }

  /** The bytes AddRecord appends for the rest of a record at file position p. */
  function Fragments(crc: Crc, p: nat, left: Bytes, begin: bool): (b: Bytes)
    ensures |b| > 0
    decreases |left|, Phase(p)
  {
    if BLOCK - p % BLOCK < HEADER then
      BlockEnd(p);
      Zeros(BLOCK - p % BLOCK) + Fragments(crc, p + (BLOCK - p % BLOCK), left, begin)
    else
      var n := FragmentLength(p, left);
      var head := Physical(crc, FragmentType(begin, n == |left|), left[..n]);
      if n == |left| then head
      else
        FullBlock(p, n);
        head + Fragments(crc, p + HEADER + n, left[n..], false)
  }

  lemma BlockEnd(p: nat)
    ensures (p + (BLOCK - p % BLOCK)) % BLOCK == 0
  {
  }

  lemma FullBlock(p: nat, n: nat)
    requires p % BLOCK + HEADER + n == BLOCK
    ensures (p + HEADER + n) % BLOCK == 0
  {
  }

  /** The whole log from position p on. */
  function Encode(crc: Crc, p: nat, records: seq<Bytes>): Bytes
    decreases |records|
  {
    if records == [] then []
    else
      var b := Fragments(crc, p, records[0], true);
      b + Encode(crc, p + |b|, records[1..])
  }

  lemma {:induction false} EncodePrefix(crc: Crc, p: nat, records: seq<Bytes>, n: nat)
    requires n <= |records|
    ensures |Encode(crc, p, records[..n])| <= |Encode(crc, p, records)|
    decreases |records|
  {
    if n > 0 {
      var b := Fragments(crc, p, records[0], true);
      EncodePrefix(crc, p + |b|, records[1..], n - 1);
      assert records[..n][1..] == records[1..][..n - 1];
    }
  }

  /** One more record at the end of a log that reaches to position q. */
  lemma {:induction false} EncodeSnoc(crc: Crc, p: nat, records: seq<Bytes>, r: Bytes, log: Bytes, q: nat)
    requires log == Encode(crc, p, records) && q == p + |log|
    ensures Encode(crc, p, records + [r]) == log + Fragments(crc, q, r, true)
    decreases |records|
  {
    if records == [] {
      EncodeOne(crc, p, r);
      assert [] + [r] == [r];
    } else {
      var b := Fragments(crc, p, records[0], true);
      var rest := Encode(crc, p + |b|, records[1..]);
      EncodeSnoc(crc, p + |b|, records[1..], r, rest, q);
      EncodeHead(crc, p, records + [r], records[1..] + [r], b);
      Assoc(b, rest, Fragments(crc, q, r, true));
    }
  }

  lemma EncodeOne(crc: Crc, p: nat, r: Bytes)
    ensures Encode(crc, p, [r]) == Fragments(crc, p, r, true)
  {
    assert [r][1..] == [];
  }

  lemma EncodeHead(crc: Crc, p: nat, records: seq<Bytes>, tail: seq<Bytes>, b: Bytes)
    requires records != [] && tail == records[1..] && b == Fragments(crc, p, records[0], true)
    ensures Encode(crc, p, records) == b + Encode(crc, p + |b|, tail)
  {
  }

  lemma OffsetIs(offset: nat, p: nat)
    requires offset <= BLOCK && offset % BLOCK == p % BLOCK
    ensures if offset == BLOCK then p % BLOCK == 0 else p % BLOCK == offset
  {
  }

  lemma SameOffset(a: nat, b: nat, k: nat)
    requires a % BLOCK == b % BLOCK
    ensures (a + k) % BLOCK == (b + k) % BLOCK
  {
  }

  /** The file after the rest of a record has been appended to dest. */
  function Appended(crc: Crc, dest: Bytes, left: Bytes, begin: bool): Bytes {
    dest + Fragments(crc, |dest|, left, begin)
  }

  lemma AppendedSwitch(crc: Crc, dest: Bytes, left: Bytes, begin: bool)
    requires BLOCK - |dest| % BLOCK < HEADER
    ensures Appended(crc, dest, left, begin) == Appended(crc, dest + Zeros(BLOCK - |dest| % BLOCK), left, begin)
    ensures |dest + Zeros(BLOCK - |dest| % BLOCK)| % BLOCK == 0
  {
    var zeros := Zeros(BLOCK - |dest| % BLOCK);
    BlockEnd(|dest|);
    FragmentsSwitch(crc, |dest|, left, begin, zeros);
    AppendedMore(crc, dest, left, begin, zeros, left, begin);
  }

  lemma FragmentsSwitch(crc: Crc, p: nat, left: Bytes, begin: bool, zeros: Bytes)
    requires BLOCK - p % BLOCK < HEADER && zeros == Zeros(BLOCK - p % BLOCK)
    ensures Fragments(crc, p, left, begin) == zeros + Fragments(crc, p + |zeros|, left, begin)
  {
  }

  lemma FragmentsStep(crc: Crc, p: nat, left: Bytes, begin: bool, n: nat, head: Bytes)
    requires BLOCK - p % BLOCK >= HEADER && n == FragmentLength(p, left)
    requires head == Physical(crc, FragmentType(begin, n == |left|), left[..n])
    ensures n == |left| ==> Fragments(crc, p, left, begin) == head
    ensures n < |left| ==> Fragments(crc, p, left, begin) == head + Fragments(crc, p + |head|, left[n..], false)
  {
  }

  lemma AppendedStep(crc: Crc, dest: Bytes, left: Bytes, begin: bool, n: nat, head: Bytes)
    requires BLOCK - |dest| % BLOCK >= HEADER && n == FragmentLength(|dest|, left)
    requires head == Physical(crc, FragmentType(begin, n == |left|), left[..n])
    ensures n == |left| ==> Appended(crc, dest, left, begin) == dest + head
    ensures n < |left| ==> Appended(crc, dest, left, begin) == Appended(crc, dest + head, left[n..], false)
  {
    FragmentsStep(crc, |dest|, left, begin, n, head);
    if n < |left| {
      AppendedMore(crc, dest, left, begin, head, left[n..], false);
    }
  }

  /** A fragment that does not end its record fills the block. */
  lemma StepFillsBlock(p: nat, left: Bytes, n: nat)
    requires BLOCK - p % BLOCK >= HEADER && n == FragmentLength(p, left) && n < |left|
    ensures (p + HEADER + n) % BLOCK == 0
  {
    FullBlock(p, n);
  }

  /** If some bytes come first among those to append, they may be appended first. */
  lemma AppendedMore(crc: Crc, dest: Bytes, left: Bytes, begin: bool, first: Bytes, left': Bytes, begin': bool)
    requires Fragments(crc, |dest|, left, begin) == first + Fragments(crc, |dest| + |first|, left', begin')
    ensures Appended(crc, dest, left, begin) == Appended(crc, dest + first, left', begin')
  {
    Assoc(dest, first, Fragments(crc, |dest| + |first|, left', begin'));
  }

  /** log::Writer over a growing file. */
  class Writer {
    const crc: Crc
    var dest: Bytes
    var blockOffset: nat

    ghost predicate Valid()
      reads this
    {
      blockOffset <= BLOCK && blockOffset % BLOCK == |dest| % BLOCK
    }

    constructor (crc: Crc, dest: Bytes)
      ensures Valid() && this.dest == dest && this.crc == crc
    {
      this.crc := crc;
      this.dest := dest;
      blockOffset := |dest| % BLOCK;
    }

    method EmitPhysicalRecord(t: byte, payload: Bytes)
      requires Valid() && blockOffset + HEADER + |payload| <= BLOCK
      modifies this
      ensures Valid() && dest == old(dest) + Physical(crc, t, payload)
      ensures blockOffset == old(blockOffset) + HEADER + |payload|
    {
      SameOffset(blockOffset, |dest|, HEADER + |payload|);
      var header := Fixed32(Mask(crc([t] + payload))) + [|payload| % 256, |payload| / 256, t];
      assert dest + header + payload == dest + (header + payload);
      dest := dest + header;
      dest := dest + payload;
      blockOffset := blockOffset + HEADER + |payload|;
    }

    /** The switch to a new block at the top of the fragmenting loop. */
    method StartBlockIfNeeded(ghost left: Bytes, ghost begin: bool)
      requires Valid()
      modifies this
      ensures Valid() && blockOffset == |dest| % BLOCK && BLOCK - |dest| % BLOCK >= HEADER
      ensures Appended(crc, dest, left, begin) == Appended(crc, old(dest), left, begin)
      ensures Phase(|dest|) <= Phase(old(|dest|))
    {
      OffsetIs(blockOffset, |dest|);
      var leftover := BLOCK - blockOffset;
      if leftover < HEADER {
        if leftover > 0 {
          PadBlock(leftover, left, begin);
        }
        blockOffset := 0;
      }
    }

    method PadBlock(leftover: nat, ghost left: Bytes, ghost begin: bool)
      requires leftover == BLOCK - |dest| % BLOCK < HEADER
      modifies this`dest
      ensures |dest| % BLOCK == 0 && Appended(crc, dest, left, begin) == Appended(crc, old(dest), left, begin)
    {
      AppendedSwitch(crc, dest, left, begin);
      dest := dest + Zeros(leftover);
    }

    method AddRecord(record: Bytes)
      requires Valid()
      modifies this
      ensures Valid() && dest == old(dest) + Fragments(crc, |old(dest)|, record, true)
    {
      var left := record;
      var begin := true;
      var done := false;
      ghost var goal := Appended(crc, dest, record, true);
      while !done
        invariant Valid()
        invariant if done then dest == goal else Appended(crc, dest, left, begin) == goal
        decreases !done, |left|, Phase(|dest|)
      {
        StartBlockIfNeeded(left, begin);
        var avail := BLOCK - blockOffset - HEADER;
        var fragmentLength := if |left| < avail then |left| else avail;
        var end := |left| == fragmentLength;
        AppendedStep(crc, dest, left, begin, fragmentLength,
                     Physical(crc, FragmentType(begin, end), left[..fragmentLength]));
        if !end {
          StepFillsBlock(|dest|, left, fragmentLength);
        }
        EmitPhysicalRecord(FragmentType(begin, end), left[..fragmentLength]);
        left := left[fragmentLength..];
        begin := false;
        done := |left| == 0;
      }
    }
  }
}
