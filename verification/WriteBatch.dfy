/** WriteBatch: a sequence number, a count and a list of updates in one string. */
module WriteBatches {
  import opened Wrappers
  import opened Coding

  const HEADER_SIZE := 12

  datatype Op = Put(key: Bytes, value: Bytes) | Delete(key: Bytes)

  /** Lengths are written as 32-bit varints. */
  predicate SmallOp(op: Op) {
    |op.key| < 0x1_0000_0000 && (op.Put? ==> |op.value| < 0x1_0000_0000)
  }

  type Ops = ops: seq<Op> | forall op :: op in ops ==> SmallOp(op)

  function EncodeOp(op: Op): (b: Bytes)
    ensures |b| > 0
  {
    match op
    case Put(k, v) => [1] + PutSlice(k) + PutSlice(v)
    case Delete(k) => [0] + PutSlice(k)
  }

  function EncodeOps(ops: seq<Op>): Bytes {
    if ops == [] then [] else EncodeOp(ops[0]) + EncodeOps(ops[1..])
  }

  /** The contents of a batch. */
  function Encode(first: u64, ops: seq<Op>): (b: Bytes)
    ensures |b| >= HEADER_SIZE
  {
    Pack(Fixed64(first), Fixed32(|ops| % 0x1_0000_0000), EncodeOps(ops))
  }

  function Pack(first: Bytes, count: Bytes, body: Bytes): (b: Bytes)
    ensures |b| == |first| + |count| + |body|
  {
    first + count + body
  }

  /** Reading one update. */
  function DecodeOp(input: Bytes): (r: Option<(Op, Bytes)>)
    requires input != []
    ensures r.Some? ==> |r.value.1| < |input|
  {
    var tag, rest := input[0], input[1..];
    if tag == 1 then
      match GetSlice(rest)
      case None => None
      case Some((k, rest')) =>
        match GetSlice(rest')
        case None => None
        case Some((v, rest'')) => Some((Put(k, v), rest''))
    else if tag == 0 then
      match GetSlice(rest)
      case None => None
      case Some((k, rest')) => Some((Delete(k), rest'))
    else None
  }

  /** Dropping the tag byte. */
  lemma Untag(t: byte, a: Bytes, b: Bytes)
    ensures ([t] + a + b)[0] == t && ([t] + a + b)[1..] == a + b
  {
  }

  lemma OpRoundTrip(op: Op, rest: Bytes)
    requires SmallOp(op)
    ensures DecodeOp(EncodeOp(op) + rest) == Some((op, rest))
  {
    match op
    case Put(k, v) =>
      Assoc([1], PutSlice(k), PutSlice(v));
      Untag(1, PutSlice(k) + PutSlice(v), rest);
      Assoc(PutSlice(k), PutSlice(v), rest);
      SliceRoundTrip(k, PutSlice(v) + rest);
      SliceRoundTrip(v, rest);
    case Delete(k) =>
      Untag(0, PutSlice(k), rest);
      SliceRoundTrip(k, rest);
  }

  /** The updates Iterate hands out, and whether the input ended well. */
  datatype Parsed = Parsed(ops: seq<Op>, ok: bool)

  function Parse(input: Bytes): Parsed
    decreases |input|
  {
    if input == [] then Parsed([], true)
    else
      match DecodeOp(input)
      case None => Parsed([], false)
      case Some((op, rest)) => var p := Parse(rest); Parsed([op] + p.ops, p.ok)
  }

  lemma {:induction false} OpsRoundTrip(ops: Ops)
    ensures Parse(EncodeOps(ops)) == Parsed(ops, true)
    decreases |ops|
  {
    if ops != [] {
      OpRoundTrip(ops[0], EncodeOps(ops[1..]));
      OpsRoundTrip(ops[1..]);
    }
  }

  lemma EncodeOpsCons(a: seq<Op>, b: seq<Op>)
    requires a != []
    ensures EncodeOps(a + b) == EncodeOp(a[0]) + EncodeOps(a[1..] + b)
  {
    assert (a + b)[0] == a[0] && (a + b)[1..] == a[1..] + b;
  }

  lemma {:induction false} EncodeOpsConcat(a: seq<Op>, b: seq<Op>)
    ensures EncodeOps(a + b) == EncodeOps(a) + EncodeOps(b)
    decreases |a|
  {
    if a == [] {
      assert a + b == b;
    } else {
      EncodeOpsConcat(a[1..], b);
      EncodeOpsCons(a, b);
      Assoc(EncodeOp(a[0]), EncodeOps(a[1..]), EncodeOps(b));
    }
  }

  /** What a reader of the contents learns: first sequence number, updates, success. */
  datatype Contents = Contents(first: nat, ops: seq<Op>, ok: bool)

  function Decode(rep: Bytes): Contents {
    if |rep| < HEADER_SIZE then Contents(0, [], false)
    else
      var p := Parse(rep[HEADER_SIZE..]);
      Contents(DecodeFixed64(rep), p.ops, p.ok && |p.ops| == DecodeFixed32(rep[8..]))
  }

  lemma DecodeParts(a: Bytes, b: Bytes, body: Bytes)
    requires |a| == 8 && |b| == 4
    ensures var p := Parse(body);
      Decode(Pack(a, b, body)) == Contents(DecodeFixed64(a), p.ops, p.ok && |p.ops| == DecodeFixed32(b))
  {
    var rep := Pack(a, b, body);
    Split3(a, b, body);
    SameWords(a, rep);
    assert forall i :: 0 <= i < 4 ==> rep[8..][i] == rep[8..12][i];
    assert rep[HEADER_SIZE..] == body;
  }

  lemma SameWords(a: Bytes, b: Bytes)
    requires |a| >= 8 && a <= b
    ensures DecodeFixed64(a) == DecodeFixed64(b)
  {
    assert forall i :: 0 <= i < 4 ==> a[4..][i] == a[4 + i] == b[4..][i];
  }

  lemma DecodeEncode(first: u64, ops: Ops)
    requires |ops| < 0x1_0000_0000
    ensures Decode(Encode(first, ops)) == Contents(first, ops, true)
  {
    var n := |ops| % 0x1_0000_0000;
    var a, b, body := Fixed64(first), Fixed32(n), EncodeOps(ops);
    assert DecodeFixed64(a) == first by {
      Fixed64RoundTrip(first);
    }
    assert DecodeFixed32(b) == n by {
      Fixed32RoundTrip(n);
    }
    OpsRoundTrip(ops);
    DecodeParts(a, b, body);
    Small32(|ops|);
  }

  lemma OneOp(op: Op)
    ensures EncodeOps([op]) == EncodeOp(op)
  {
    assert EncodeOps([op]) == EncodeOp(op) + EncodeOps([]);
  }

  /** Counts are kept modulo 2^32. */
  lemma CountSum(a: nat, b: nat)
    ensures (a % 0x1_0000_0000 + b % 0x1_0000_0000) % 0x1_0000_0000 == (a + b) % 0x1_0000_0000
  {
  }

  class WriteBatch {
    var rep: Bytes
    ghost var first: u64
    ghost var ops: seq<Op>

    ghost predicate Valid()
      reads this
    {
      rep == Encode(first, ops)
    }

    constructor ()
      ensures Valid() && ops == []
    {
      rep := Zeros(HEADER_SIZE);
      first, ops := 0, [];
    }

    function Count(): (n: u32)
      requires Valid()
      reads this
      ensures n == |ops| % 0x1_0000_0000
    {
      HeaderOf(first, ops);
      DecodeFixed32(rep[8..])
    }

    function Sequence(): (n: u64)
      requires Valid()
      reads this
      ensures n == first
    {
      HeaderOf(first, ops);
      DecodeFixed64(rep)
    }

    method SetSequence(n: u64)
      requires Valid()
      modifies this
      ensures Valid() && first == n && ops == old(ops)
    {
      Split3(Fixed64(first), Fixed32(|ops| % 0x1_0000_0000), EncodeOps(ops));
      Repack(rep, Fixed64(first), Fixed32(|ops| % 0x1_0000_0000), EncodeOps(ops), Fixed64(n));
      rep := Fixed64(n) + rep[8..];
      first := n;
    }

    /** Patches the count in the header and appends a string after the last update. */
    method SetCountAndAppend(n: u32, more: Bytes)
      requires Valid()
      modifies this`rep
      ensures rep == Pack(Fixed64(first), Fixed32(n), EncodeOps(ops) + more)
    {
      Split3(Fixed64(first), Fixed32(|ops| % 0x1_0000_0000), EncodeOps(ops));
      rep := rep[..8] + Fixed32(n) + rep[12..];
      Assoc(Fixed64(first) + Fixed32(n), EncodeOps(ops), more);
      rep := rep + more;
    }

    method AddCount(count: u32, ghost m: nat) returns (n: u32)
      requires Valid() && count == m % 0x1_0000_0000
      ensures n == (|ops| + m) % 0x1_0000_0000
    {
      CountSum(|ops|, m);
      n := (Count() + count) % 0x1_0000_0000;
    }

    /** Adds to the count and appends the updates that were counted. */
    method AppendUpdates(ghost more: seq<Op>, count: u32, bytes: Bytes)
      requires Valid() && count == |more| % 0x1_0000_0000 && bytes == EncodeOps(more)
      modifies this
      ensures Valid() && first == old(first) && ops == old(ops) + more
    {
      var n := AddCount(count, |more|);
      EncodeOpsConcat(ops, more);
      Extended(first, ops, more, n, bytes);
      SetCountAndAppend(n, bytes);
      ops := ops + more;
    }

    method Put(key: Bytes, value: Bytes)
      requires Valid()
      modifies this
      ensures Valid() && first == old(first) && ops == old(ops) + [Op.Put(key, value)]
    {
      OneOp(Op.Put(key, value));
      AppendUpdates([Op.Put(key, value)], 1, [1] + PutSlice(key) + PutSlice(value));
    }

    method Delete(key: Bytes)
      requires Valid()
      modifies this
      ensures Valid() && first == old(first) && ops == old(ops) + [Op.Delete(key)]
    {
      OneOp(Op.Delete(key));
      AppendUpdates([Op.Delete(key)], 1, [0] + PutSlice(key));
    }

    method Append(src: WriteBatch)
      requires Valid() && src.Valid()
      modifies this
      ensures Valid() && first == old(first) && ops == old(ops) + old(src.ops)
    {
      HeaderOf(src.first, src.ops);
      AppendUpdates(src.ops, src.Count(), src.rep[HEADER_SIZE..]);
    }
  }

  /** A new count and more bytes make a longer batch. */
  lemma Extended(first: u64, ops: seq<Op>, more: seq<Op>, n: u32, bytes: Bytes)
    requires n == |ops + more| % 0x1_0000_0000 && EncodeOps(ops + more) == EncodeOps(ops) + bytes
    ensures Pack(Fixed64(first), Fixed32(n), EncodeOps(ops) + bytes) == Encode(first, ops + more)
  {
  }

  lemma HeaderOf(first: u64, ops: seq<Op>)
    ensures DecodeFixed64(Encode(first, ops)) == first
    ensures DecodeFixed32(Encode(first, ops)[8..]) == |ops| % 0x1_0000_0000
    ensures Encode(first, ops)[HEADER_SIZE..] == EncodeOps(ops)
  {
    var n := |ops| % 0x1_0000_0000;
    PackHeader(Fixed64(first), Fixed32(n), EncodeOps(ops));
    assert DecodeFixed64(Fixed64(first)) == first by {
      Fixed64RoundTrip(first);
    }
    assert DecodeFixed32(Fixed32(n)) == n by {
      Fixed32RoundTrip(n);
    }
  }

  lemma PackHeader(a: Bytes, b: Bytes, body: Bytes)
    requires |a| == 8 && |b| == 4
    ensures var rep := Pack(a, b, body);
      && DecodeFixed64(rep) == DecodeFixed64(a)
      && DecodeFixed32(rep[8..]) == DecodeFixed32(b) && rep[HEADER_SIZE..] == body
  {
    DecodeParts(a, b, body);
    Split3(a, b, body);
    var rep := Pack(a, b, body);
    SameWords(a, rep);
    assert forall i :: 0 <= i < 4 ==> rep[8..][i] == rep[8..12][i];
  }

  lemma Repack(rep: Bytes, a: Bytes, b: Bytes, body: Bytes, a': Bytes)
    requires rep == Pack(a, b, body) && |a| == 8
    ensures a' + rep[8..] == Pack(a', b, body)
  {
  }

  // ---- The format, byte by byte ----

  /** Updates are read under the tags 1 and 0... */
  lemma UpdateTags(k: Bytes, v: Bytes, rest: Bytes)
    requires |k| < 0x1_0000_0000 && |v| < 0x1_0000_0000
    ensures var p := Parse(rest);
      && Parse([1] + PutSlice(k) + PutSlice(v) + rest) == Parsed([Put(k, v)] + p.ops, p.ok)
      && Parse([0] + PutSlice(k) + rest) == Parsed([Delete(k)] + p.ops, p.ok)
  {
    OpRoundTrip(Put(k, v), rest);
    OpRoundTrip(Delete(k), rest);
  }

  /** ... and no others; what is not an update ends the reading. */
  lemma BadUpdate(input: Bytes)
    requires input != []
    requires
      || input[0] > 1 || GetSlice(input[1..]).None?
      || (input[0] == 1 && GetSlice(GetSlice(input[1..]).value.1).None?)
    ensures Parse(input) == Parsed([], false)
  {
  }

  /** A batch starts with its first number in 8 bytes and its count in 4, and its updates follow
      one behind the other. */
  lemma BatchLayout(first: u64, ops: seq<Op>)
    ensures var b := Encode(first, ops);
      && LittleEndian(b[..8]) == first && LittleEndian(b[8..12]) == |ops| % 0x1_0000_0000
      && b[12..] == EncodeOps(ops)
    ensures ops != [] ==>
      EncodeOps(ops) ==
      (match ops[0] case Put(k, v) => [1] + PutSlice(k) + PutSlice(v) case Delete(k) => [0] + PutSlice(k))
      + EncodeOps(ops[1..])
  {
    var n := |ops| % 0x1_0000_0000;
    Split3(Fixed64(first), Fixed32(n), EncodeOps(ops));
    FixedWriteLittleEndian(n, first);
  }

  /** WriteBatch::Iterate: hands out the updates one by one, then checks the count. */
  method Iterate(rep: Bytes) returns (ops: seq<Op>, ok: bool)
    ensures ops == Decode(rep).ops && ok == Decode(rep).ok
    ensures |rep| < 12 ==> ops == [] && !ok
    ensures |rep| >= 12 ==>
      ops == Parse(rep[12..]).ops && (ok <==> Parse(rep[12..]).ok && |ops| == LittleEndian(rep[8..12]))
  {
    if |rep| >= HEADER_SIZE {
      WordIs(rep, 8);
    }
    ops := [];
    if |rep| < HEADER_SIZE {
      return [], false;
    }
    var input := rep[HEADER_SIZE..];
    while input != []
      invariant Parse(rep[HEADER_SIZE..]) == Parsed(ops + Parse(input).ops, Parse(input).ok)
      decreases |input|
    {
      var op := DecodeOp(input);
      if op.None? {
        assert ops + [] == ops;
        return ops, false;
      }
      assert ops + ([op.value.0] + Parse(op.value.1).ops) == ops + [op.value.0] + Parse(op.value.1).ops;
      ops := ops + [op.value.0];
      input := op.value.1;
    }
    assert ops + [] == ops;
    ok := |ops| == DecodeFixed32(rep[8..]);
  }
}
