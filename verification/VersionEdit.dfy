/** VersionEdit: the change from one version to the next, as it is written to the manifest. */
module VersionEdits {
  import opened Wrappers
  import opened Coding
  import DbFormat

  const NUM_LEVELS := DbFormat.NUM_LEVELS

  datatype FileMeta = FileMeta(number: nat, size: nat, smallest: Bytes, largest: Bytes)

  datatype Edit = Edit(
    comparator: Option<Bytes>, logNumber: Option<nat>, prevLogNumber: Option<nat>, nextFile: Option<nat>,
      lastSequence: Option<nat>,
    pointers: seq<(nat, Bytes)>, deleted: set<(nat, nat)>, files: seq<(nat, FileMeta)>)

  const NO_EDIT := Edit(None, None, None, None, None, [], {}, [])

  /** One tagged field of an encoded edit. */
  datatype Field =
    | Comparator(name: Bytes)
    | LogNumber(number: nat)
    | PrevLogNumber(number: nat)
    | NextFile(number: nat)
    | LastSequence(number: nat)
    | Pointer(level: nat, key: Bytes)
    | Deleted(level: nat, number: nat)
    | NewFile(level: nat, file: FileMeta)

  // ---- Fields as bytes ----

  function TagOf(f: Field): byte {
    match f
    case Comparator(_) => 1
    case LogNumber(_) => 2
    case NextFile(_) => 3
    case LastSequence(_) => 4
    case Pointer(_, _) => 5
    case Deleted(_, _) => 6
    case NewFile(_, _) => 7
    case PrevLogNumber(_) => 9
  }

  function BodyOf(f: Field): Bytes {
    match f
    case Comparator(name) => PutSlice(name)
    case Pointer(level, key) => Varint(level) + PutSlice(key)
    case Deleted(level, n) => Varint(level) + Varint(n)
    case NewFile(level, m) => Varint(level) + EncodeFile(m)
    case _ => Varint(f.number)
  }

  function EncodeField(f: Field): (b: Bytes)
    ensures b != []
  {
    [TagOf(f)] + BodyOf(f)
  }

  function EncodeFile(m: FileMeta): Bytes {
    Varint(m.number) + (Varint(m.size) + (PutSlice(m.smallest) + PutSlice(m.largest)))
  }

  const LIMIT64 := 0x1_0000_0000_0000_0000
  const LIMIT32 := 0x1_0000_0000

  predicate SmallFile(m: FileMeta) {
    m.number < LIMIT64 && m.size < LIMIT64 && |m.smallest| < LIMIT32 && |m.largest| < LIMIT32
  }

  /** The numbers fit their types and the level exists. */
  predicate SmallField(f: Field) {
    match f
    case Comparator(name) => |name| < LIMIT32
    case Pointer(level, key) => level < NUM_LEVELS && |key| < LIMIT32
    case Deleted(level, n) => level < NUM_LEVELS && n < LIMIT64
    case NewFile(level, m) => level < NUM_LEVELS && SmallFile(m)
    case _ => f.number < LIMIT64
  }

  function GetLevel(input: Bytes): (r: Option<(nat, Bytes)>)
    ensures r.Some? ==> |r.value.1| < |input| && r.value.0 < NUM_LEVELS
  {
    match GetVarint32(input)
    case None => None
    case Some((v, rest)) => if v < NUM_LEVELS then Some((v, rest)) else None
  }

  /** Two slices, one after the other. */
  function GetBounds(number: nat, size: nat, input: Bytes): (r: Option<(FileMeta, Bytes)>)
    ensures r.Some? ==> |r.value.1| < |input|
  {
    match GetSlice(input)
    case None => None
    case Some((smallest, i1)) =>
      match GetSlice(i1)
      case None => None
      case Some((largest, i2)) => Some((FileMeta(number, size, smallest, largest), i2))
  }

  function GetFile(input: Bytes): (r: Option<(FileMeta, Bytes)>)
    ensures r.Some? ==> |r.value.1| < |input|
  {
    match GetVarint64(input)
    case None => None
    case Some((number, i1)) =>
      match GetVarint64(i1)
      case None => None
      case Some((size, i2)) => GetBounds(number, size, i2)
  }

  function GetNumber(tag: nat, input: Bytes): (r: Option<(Field, Bytes)>)
    ensures r.Some? ==> |r.value.1| < |input|
  {
    match GetVarint64(input)
    case None => None
    case Some((n, rest)) =>
      var f :=
        if tag == 2 then LogNumber(n)
        else if tag == 3 then NextFile(n)
        else if tag == 4 then LastSequence(n)
        else PrevLogNumber(n);
      Some((f, rest))
  }

  function GetAtLevel(tag: nat, input: Bytes): (r: Option<(Field, Bytes)>)
    ensures r.Some? ==> |r.value.1| < |input|
  {
    var l := GetLevel(input);
    if l.None? then None else GetAt(tag, l.value.0, l.value.1)
  }

  function GetAt(tag: nat, level: nat, input: Bytes): (r: Option<(Field, Bytes)>)
    ensures r.Some? ==> |r.value.1| < |input|
  {
    if tag == 5 then
      var k := GetSlice(input);
      if k.None? then None else Some((Pointer(level, k.value.0), k.value.1))
    else if tag == 6 then
      var n := GetVarint64(input);
      if n.None? then None else Some((Deleted(level, n.value.0), n.value.1))
    else
      var m := GetFile(input);
      if m.None? then None else Some((NewFile(level, m.value.0), m.value.1))
  }

  /** The body of a field, after its tag. */
  function GetBody(tag: nat, input: Bytes): (r: Option<(Field, Bytes)>)
    ensures r.Some? ==> |r.value.1| < |input|
  {
    if tag == 1 then
      match GetSlice(input) { case None => None case Some((s, rest)) => Some((Comparator(s), rest)) }
    else if tag == 2 || tag == 3 || tag == 4 || tag == 9 then GetNumber(tag, input)
    else if tag == 5 || tag == 6 || tag == 7 then GetAtLevel(tag, input)
    else None
  }

  function GetField(input: Bytes): (r: Option<(Field, Bytes)>)
    ensures r.Some? ==> |r.value.1| < |input|
  {
    match GetVarint32(input)
    case None => None
    case Some((tag, rest)) => GetBody(tag, rest)
  }

  lemma TagRoundTrip(tag: byte, body: Bytes)
    requires tag < 128
    ensures GetVarint32([tag] + body) == Some((tag as nat, body))
  {
    assert Varint(tag) == [tag];
    Varint32RoundTrip(tag, body);
  }

  lemma LevelRoundTrip(level: nat, rest: Bytes)
    requires level < NUM_LEVELS
    ensures GetLevel(Varint(level) + rest) == Some((level, rest))
  {
    Varint32RoundTrip(level, rest);
  }

  lemma BoundsRoundTrip(m: FileMeta, rest: Bytes)
    requires SmallFile(m)
    ensures GetBounds(m.number, m.size, PutSlice(m.smallest) + PutSlice(m.largest) + rest) == Some((m, rest))
  {
    Assoc(PutSlice(m.smallest), PutSlice(m.largest), rest);
    SliceRoundTrip(m.smallest, PutSlice(m.largest) + rest);
    SliceRoundTrip(m.largest, rest);
  }

  lemma SizesRoundTrip(number: nat, size: nat, bounds: Bytes)
    requires number < LIMIT64 && size < LIMIT64
    ensures GetFile(Varint(number) + (Varint(size) + bounds)) == GetBounds(number, size, bounds)
  {
    Varint64RoundTrip(number, Varint(size) + bounds);
    Varint64RoundTrip(size, bounds);
  }

  lemma FileRoundTrip(level: nat, m: FileMeta, rest: Bytes)
    requires SmallFile(m)
    ensures GetAt(7, level, EncodeFile(m) + rest) == Some((NewFile(level, m), rest))
  {
    var bounds := PutSlice(m.smallest) + PutSlice(m.largest);
    Assoc(Varint(m.number), Varint(m.size) + bounds, rest);
    Assoc(Varint(m.size), bounds, rest);
    SizesRoundTrip(m.number, m.size, bounds + rest);
    BoundsRoundTrip(m, rest);
  }

  lemma PointerRoundTrip(level: nat, key: Bytes, rest: Bytes)
    requires level < NUM_LEVELS && |key| < LIMIT32
    ensures GetAtLevel(5, Varint(level) + PutSlice(key) + rest) == Some((Pointer(level, key), rest))
  {
    Assoc(Varint(level), PutSlice(key), rest);
    LevelRoundTrip(level, PutSlice(key) + rest);
    SliceRoundTrip(key, rest);
  }

  lemma DeletedRoundTrip(level: nat, n: nat, rest: Bytes)
    requires level < NUM_LEVELS && n < LIMIT64
    ensures GetAtLevel(6, Varint(level) + Varint(n) + rest) == Some((Deleted(level, n), rest))
  {
    Assoc(Varint(level), Varint(n), rest);
    LevelRoundTrip(level, Varint(n) + rest);
    Varint64RoundTrip(n, rest);
  }

  lemma NewFileRoundTrip(level: nat, m: FileMeta, rest: Bytes)
    requires level < NUM_LEVELS && SmallFile(m)
    ensures GetAtLevel(7, Varint(level) + EncodeFile(m) + rest) == Some((NewFile(level, m), rest))
  {
    var body := EncodeFile(m);
    assert GetLevel(Varint(level) + body + rest) == Some((level, body + rest)) by {
      Assoc(Varint(level), body, rest);
      LevelRoundTrip(level, body + rest);
    }
    FileRoundTrip(level, m, rest);
  }

  lemma BodyRoundTrip(f: Field, rest: Bytes)
    requires SmallField(f)
    ensures GetBody(TagOf(f), BodyOf(f) + rest) == Some((f, rest))
  {
    match f
    case Comparator(name) => SliceRoundTrip(name, rest);
    case Pointer(level, key) => PointerRoundTrip(level, key, rest);
    case Deleted(level, n) => DeletedRoundTrip(level, n, rest);
    case NewFile(level, m) => NewFileRoundTrip(level, m, rest);
    case _ => Varint64RoundTrip(f.number, rest);
  }

  lemma FieldRoundTrip(f: Field, rest: Bytes)
    requires SmallField(f)
    ensures GetField(EncodeField(f) + rest) == Some((f, rest))
  {
    Assoc([TagOf(f)], BodyOf(f), rest);
    TagRoundTrip(TagOf(f), BodyOf(f) + rest);
    BodyRoundTrip(f, rest);
  }

  // ---- Whole edits ----

  /** Fields from i on, one behind the other. */
  function Join(enc: Field -> Bytes, fs: seq<Field>, i: nat): Bytes
    requires i <= |fs|
    decreases |fs| - i
  {
    if i == |fs| then [] else enc(fs[i]) + Join(enc, fs, i + 1)
  }

  function EncodeFields(fs: seq<Field>, i: nat): Bytes
    requires i <= |fs|
  {
    Join(EncodeField, fs, i)
  }

  /** DecodeFrom, one field at a time. */
  function SetField(e: Edit, f: Field): Edit {
    match f
    case Comparator(name) => e.(comparator := Some(name))
    case LogNumber(n) => e.(logNumber := Some(n))
    case PrevLogNumber(n) => e.(prevLogNumber := Some(n))
    case NextFile(n) => e.(nextFile := Some(n))
    case LastSequence(n) => e.(lastSequence := Some(n))
    case Pointer(level, key) => e.(pointers := e.pointers + [(level, key)])
    case Deleted(level, n) => e.(deleted := e.deleted + {(level, n)})
    case NewFile(level, m) => e.(files := e.files + [(level, m)])
  }

  function SetFields(e: Edit, fs: seq<Field>, i: nat): Edit
    requires i <= |fs|
    decreases |fs| - i
  {
    if i == |fs| then e else SetFields(SetField(e, fs[i]), fs, i + 1)
  }

  function Decode(e: Edit, input: Bytes): Option<Edit>
    decreases |input|
  {
    if input == [] then Some(e)
    else
      match GetField(input)
      case None => None
      case Some((f, rest)) => Decode(SetField(e, f), rest)
  }

  method DecodeFrom(src: Bytes) returns (r: Option<Edit>)
    ensures r == Decode(NO_EDIT, src)
  {
    var e, input := NO_EDIT, src;
    while input != []
      invariant Decode(NO_EDIT, src) == Decode(e, input)
      decreases |input|
    {
      var f := GetField(input);
      if f.None? {
        return None;
      }
      e, input := SetField(e, f.value.0), f.value.1;
    }
    return Some(e);
  }

  // ---- The format, byte by byte ----

  /** Tags 2, 3, 4 and 9 set one number each, whatever else the record says. */
  lemma NumberTags(e: Edit, n: nat, rest: Bytes)
    requires n < 0x1_0000_0000_0000_0000
    ensures Decode(e, [2] + Varint(n) + rest) == Decode(e.(logNumber := Some(n)), rest)
    ensures Decode(e, [3] + Varint(n) + rest) == Decode(e.(nextFile := Some(n)), rest)
    ensures Decode(e, [4] + Varint(n) + rest) == Decode(e.(lastSequence := Some(n)), rest)
    ensures Decode(e, [9] + Varint(n) + rest) == Decode(e.(prevLogNumber := Some(n)), rest)
  {
    var body := Varint(n);
    NumberBody(n, rest);
    DecodeTag(e, 2, body, rest, LogNumber(n));
    DecodeTag(e, 3, body, rest, NextFile(n));
    DecodeTag(e, 4, body, rest, LastSequence(n));
    DecodeTag(e, 9, body, rest, PrevLogNumber(n));
  }

  lemma NumberBody(n: nat, rest: Bytes)
    requires n < LIMIT64
    ensures GetBody(2, Varint(n) + rest) == Some((LogNumber(n), rest))
    ensures GetBody(3, Varint(n) + rest) == Some((NextFile(n), rest))
    ensures GetBody(4, Varint(n) + rest) == Some((LastSequence(n), rest))
    ensures GetBody(9, Varint(n) + rest) == Some((PrevLogNumber(n), rest))
  {
    Varint64RoundTrip(n, rest);
  }

  /** Tag 1 names the comparator, 5 adds a compaction pointer. */
  lemma NameTags(e: Edit, level: nat, name: Bytes, rest: Bytes)
    requires level < 8 && |name| < 0x1_0000_0000
    ensures Decode(e, [1] + PutSlice(name) + rest) == Decode(e.(comparator := Some(name)), rest)
    ensures Decode(e, [5] + (Varint(level) + PutSlice(name)) + rest) ==
            Decode(e.(pointers := e.pointers + [(level, name)]), rest)
  {
    SliceRoundTrip(name, rest);
    DecodeTag(e, 1, PutSlice(name), rest, Comparator(name));
    PointerRoundTrip(level, name, rest);
    DecodeTag(e, 5, Varint(level) + PutSlice(name), rest, Pointer(level, name));
  }

  /** Tag 6 deletes a file and tag 7 adds one: number, size, smallest and largest key. */
  lemma FileTags(e: Edit, level: nat, m: FileMeta, rest: Bytes)
    requires level < 8 && SmallFile(m)
    ensures Decode(e, [6] + (Varint(level) + Varint(m.number)) + rest) ==
            Decode(e.(deleted := e.deleted + {(level, m.number)}), rest)
    ensures var body := Varint(m.number) + (Varint(m.size) + (PutSlice(m.smallest) + PutSlice(m.largest)));
      Decode(e, [7] + (Varint(level) + body) + rest) == Decode(e.(files := e.files + [(level, m)]), rest)
  {
    DeletedRoundTrip(level, m.number, rest);
    DecodeTag(e, 6, Varint(level) + Varint(m.number), rest, Deleted(level, m.number));
    NewFileRoundTrip(level, m, rest);
    DecodeTag(e, 7, Varint(level) + EncodeFile(m), rest, NewFile(level, m));
  }

  lemma DecodeTag(e: Edit, tag: byte, body: Bytes, rest: Bytes, f: Field)
    requires tag < 128 && GetBody(tag, body + rest) == Some((f, rest))
    ensures Decode(e, [tag] + body + rest) == Decode(SetField(e, f), rest)
  {
    Assoc([tag], body, rest);
    TagRoundTrip(tag, body + rest);
  }

  /** No other tag is accepted, and neither is a tag that is cut short or a level that does not exist. */
  lemma OtherTagsFail(e: Edit, input: Bytes)
    requires input != []
    ensures GetVarint32(input).None? ==> Decode(e, input) == None
    ensures GetVarint32(input).Some? && GetVarint32(input).value.0 !in {1, 2, 3, 4, 5, 6, 7, 9} ==>
      Decode(e, input) == None
  {
  }

  lemma MissingLevelFails(e: Edit, tag: byte, level: nat, rest: Bytes)
    requires 5 <= tag <= 7 && 8 <= level < 0x1_0000_0000
    ensures Decode(e, [tag] + (Varint(level) + rest)) == None
  {
    var body := Varint(level) + rest;
    Varint32RoundTrip(level, rest);
    assert GetLevel(body) == None;
    assert GetAtLevel(tag, body) == None;
    DecodeFails(e, tag, body);
  }

  lemma DecodeFails(e: Edit, tag: byte, body: Bytes)
    requires tag < 128 && GetBody(tag, body) == None
    ensures Decode(e, [tag] + body) == None
  {
    TagRoundTrip(tag, body);
  }

  lemma {:induction false} FieldsRoundTrip(e: Edit, fs: seq<Field>, i: nat)
    requires i <= |fs| && forall f :: f in fs ==> SmallField(f)
    ensures Decode(e, EncodeFields(fs, i)) == Some(SetFields(e, fs, i))
    decreases |fs| - i
  {
    if i < |fs| {
      FieldRoundTrip(fs[i], EncodeFields(fs, i + 1));
      FieldsRoundTrip(SetField(e, fs[i]), fs, i + 1);
    }
  }

  function Numbers(e: Edit): seq<Field> {
    (if e.comparator.Some? then [Comparator(e.comparator.value)] else [])
    + (if e.logNumber.Some? then [LogNumber(e.logNumber.value)] else [])
    + (if e.prevLogNumber.Some? then [PrevLogNumber(e.prevLogNumber.value)] else [])
    + (if e.nextFile.Some? then [NextFile(e.nextFile.value)] else [])
    + (if e.lastSequence.Some? then [LastSequence(e.lastSequence.value)] else [])
  }

  function Pointers(ps: seq<(nat, Bytes)>): seq<Field> {
    seq(|ps|, i requires 0 <= i < |ps| => Pointer(ps[i].0, ps[i].1))
  }

  function Deletions(order: seq<(nat, nat)>): seq<Field> {
    seq(|order|, i requires 0 <= i < |order| => Deleted(order[i].0, order[i].1))
  }

  function NewFiles(fs: seq<(nat, FileMeta)>): seq<Field> {
    seq(|fs|, i requires 0 <= i < |fs| => NewFile(fs[i].0, fs[i].1))
  }

  /** The fields EncodeTo writes; `order` is the order in which the set of deleted files is
      walked. */
  function FieldsOf(e: Edit, order: seq<(nat, nat)>): seq<Field> {
    Numbers(e) + Pointers(e.pointers) + Deletions(order) + NewFiles(e.files)
  }

  lemma {:induction false} JoinAppend(enc: Field -> Bytes, a: seq<Field>, b: seq<Field>, i: nat)
    requires i <= |a|
    ensures Join(enc, a + b, i) == Join(enc, a, i) + Join(enc, b, 0)
    decreases |a| - i
  {
    if i == |a| {
      JoinShift(enc, a, b, 0);
    } else {
      JoinAppend(enc, a, b, i + 1);
      Assoc(enc(a[i]), Join(enc, a, i + 1), Join(enc, b, 0));
    }
  }

  lemma {:induction false} JoinShift(enc: Field -> Bytes, a: seq<Field>, b: seq<Field>, j: nat)
    requires j <= |b|
    ensures Join(enc, a + b, |a| + j) == Join(enc, b, j)
    decreases |b| - j
  {
    if j < |b| {
      JoinShift(enc, a, b, j + 1);
      assert (a + b)[|a| + j] == b[j];
    }
  }

  lemma {:induction false} SetFieldsAppend(e: Edit, a: seq<Field>, b: seq<Field>, i: nat)
    requires i <= |a|
    ensures SetFields(e, a + b, i) == SetFields(SetFields(e, a, i), b, 0)
    decreases |a| - i
  {
    if i == |a| {
      SetFieldsShift(e, a, b, 0);
    } else {
      SetFieldsAppend(SetField(e, a[i]), a, b, i + 1);
    }
  }

  lemma {:induction false} SetFieldsShift(e: Edit, a: seq<Field>, b: seq<Field>, j: nat)
    requires j <= |b|
    ensures SetFields(e, a + b, |a| + j) == SetFields(e, b, j)
    decreases |b| - j
  {
    if j < |b| {
      SetFieldsShift(SetField(e, b[j]), a, b, j + 1);
      assert (a + b)[|a| + j] == b[j];
    }
  }

  lemma {:induction false} SetPointers(e: Edit, ps: seq<(nat, Bytes)>, i: nat)
    requires i <= |ps|
    ensures SetFields(e, Pointers(ps), i) == e.(pointers := e.pointers + ps[i..])
    decreases |ps| - i
  {
    if i == |ps| {
      assert e.pointers + ps[i..] == e.pointers;
    } else {
      SetPointers(SetField(e, Pointer(ps[i].0, ps[i].1)), ps, i + 1);
      assert e.pointers + [ps[i]] + ps[i + 1..] == e.pointers + ps[i..];
    }
  }

  lemma {:induction false} SetNewFiles(e: Edit, fs: seq<(nat, FileMeta)>, i: nat)
    requires i <= |fs|
    ensures SetFields(e, NewFiles(fs), i) == e.(files := e.files + fs[i..])
    decreases |fs| - i
  {
    if i == |fs| {
      assert e.files + fs[i..] == e.files;
    } else {
      SetNewFiles(SetField(e, NewFile(fs[i].0, fs[i].1)), fs, i + 1);
      assert e.files + [fs[i]] + fs[i + 1..] == e.files + fs[i..];
    }
  }

  ghost function Elements(order: seq<(nat, nat)>, i: nat): set<(nat, nat)>
    requires i <= |order|
    decreases |order| - i
  {
    if i == |order| then {} else {order[i]} + Elements(order, i + 1)
  }

  lemma {:induction false} SetDeletions(e: Edit, order: seq<(nat, nat)>, i: nat)
    requires i <= |order|
    ensures SetFields(e, Deletions(order), i) == e.(deleted := e.deleted + Elements(order, i))
    decreases |order| - i
  {
    if i < |order| {
      SetDeletions(SetField(e, Deleted(order[i].0, order[i].1)), order, i + 1);
      assert e.deleted + {order[i]} + Elements(order, i + 1) == e.deleted + Elements(order, i);
    }
  }

  lemma SetNumbers(e: Edit)
    ensures SetFields(NO_EDIT, Numbers(e), 0) == e.(pointers := [], deleted := {}, files := [])
  {
    var a := if e.comparator.Some? then [Comparator(e.comparator.value)] else [];
    var b := if e.logNumber.Some? then [LogNumber(e.logNumber.value)] else [];
    var c := if e.prevLogNumber.Some? then [PrevLogNumber(e.prevLogNumber.value)] else [];
    var d := if e.nextFile.Some? then [NextFile(e.nextFile.value)] else [];
    var f := if e.lastSequence.Some? then [LastSequence(e.lastSequence.value)] else [];
    var e0 := NO_EDIT;
    SetFieldsAppend(e0, a + b + c + d, f, 0);
    SetFieldsAppend(e0, a + b + c, d, 0);
    SetFieldsAppend(e0, a + b, c, 0);
    SetFieldsAppend(e0, a, b, 0);
  }

  /** An edit whose numbers fit their types. */
  ghost predicate SmallEdit(e: Edit, order: seq<(nat, nat)>) {
    Elements(order, 0) == e.deleted && forall f :: f in FieldsOf(e, order) ==> SmallField(f)
  }

  /** What EncodeTo writes, DecodeFrom reads back, in whatever order the deleted files went. */
  lemma EditRoundTrip(e: Edit, order: seq<(nat, nat)>)
    requires SmallEdit(e, order)
    ensures Decode(NO_EDIT, EncodeFields(FieldsOf(e, order), 0)) == Some(e)
  {
    FieldsRoundTrip(NO_EDIT, FieldsOf(e, order), 0);
    FieldsRebuild(e, order);
  }

  lemma FourParts(e: Edit, a: seq<Field>, b: seq<Field>, c: seq<Field>, d: seq<Field>)
    ensures SetFields(e, a + b + c + d, 0) == SetFields(SetFields(SetFields(SetFields(e, a, 0), b, 0), c, 0), d, 0)
  {
    SetFieldsAppend(e, a + b + c, d, 0);
    SetFieldsAppend(e, a + b, c, 0);
    SetFieldsAppend(e, a, b, 0);
  }

  /** Setting the fields of an edit one by one gives the edit. */
  lemma FieldsRebuild(e: Edit, order: seq<(nat, nat)>)
    requires Elements(order, 0) == e.deleted
    ensures SetFields(NO_EDIT, FieldsOf(e, order), 0) == e
  {
    FourParts(NO_EDIT, Numbers(e), Pointers(e.pointers), Deletions(order), NewFiles(e.files));
    var e1 := e.(pointers := [], deleted := {}, files := []);
    var e2 := e.(deleted := {}, files := []);
    var e3 := e.(files := []);
    SetNumbers(e);
    SetPointers(e1, e.pointers, 0);
    assert [] + e.pointers[0..] == e.pointers;
    SetDeletions(e2, order, 0);
    assert {} + Elements(order, 0) == e.deleted;
    SetNewFiles(e3, e.files, 0);
    assert [] + e.files[0..] == e.files;
  }

  // ---- What EncodeTo writes ----

  function NumberBytes(tag: byte, n: Option<nat>): Bytes {
    if n.None? then [] else [tag] + Varint(n.value)
  }

  function NameBytes(name: Option<Bytes>): Bytes {
    if name.None? then [] else [1] + PutSlice(name.value)
  }

  function PointerBytes(ps: seq<(nat, Bytes)>, i: nat): Bytes
    decreases |ps| - i
  {
    if i >= |ps| then [] else [5] + (Varint(ps[i].0) + PutSlice(ps[i].1)) + PointerBytes(ps, i + 1)
  }

  function DeletedBytes(order: seq<(nat, nat)>, i: nat): Bytes
    decreases |order| - i
  {
    if i >= |order| then [] else [6] + (Varint(order[i].0) + Varint(order[i].1)) + DeletedBytes(order, i + 1)
  }

  function FileBytes(fs: seq<(nat, FileMeta)>, i: nat): Bytes
    decreases |fs| - i
  {
    if i >= |fs| then []
    else
      var m := fs[i].1;
      var body := Varint(m.number) + (Varint(m.size) + (PutSlice(m.smallest) + PutSlice(m.largest)));
      [7] + (Varint(fs[i].0) + body) + FileBytes(fs, i + 1)
  }

  /** The record of an edit: the fields that are set, in this order and under these tags. */
  function EditBytes(e: Edit, order: seq<(nat, nat)>): Bytes {
    NameBytes(e.comparator) + NumberBytes(2, e.logNumber) + NumberBytes(9, e.prevLogNumber)
    + NumberBytes(3, e.nextFile) + NumberBytes(4, e.lastSequence)
    + PointerBytes(e.pointers, 0) + DeletedBytes(order, 0) + FileBytes(e.files, 0)
  }

  /** Field k stands first among the bytes from k on. */
  ghost predicate FieldFirst(enc: Field -> Bytes, fs: seq<Field>, bytes: nat -> Bytes, k: nat)
    requires k < |fs|
  {
    bytes(k) == enc(fs[k]) + bytes(k + 1)
  }

  /** Fields whose bytes are known, one behind the other. */
  lemma {:induction false} JoinIs(enc: Field -> Bytes, fs: seq<Field>, bytes: nat -> Bytes, i: nat)
    requires i <= |fs| && bytes(|fs|) == [] && forall k :: 0 <= k < |fs| ==> FieldFirst(enc, fs, bytes, k)
    ensures Join(enc, fs, i) == bytes(i)
    decreases |fs| - i
  {
    if i < |fs| {
      JoinIs(enc, fs, bytes, i + 1);
      assert FieldFirst(enc, fs, bytes, i);
    }
  }

  lemma PointersWritten(ps: seq<(nat, Bytes)>)
    ensures EncodeFields(Pointers(ps), 0) == PointerBytes(ps, 0)
  {
    var fs := Pointers(ps);
    var bytes := (k: nat) => PointerBytes(ps, k);
    forall k | 0 <= k < |fs| ensures FieldFirst(EncodeField, fs, bytes, k) {
      assert EncodeField(fs[k]) == [5] + (Varint(ps[k].0) + PutSlice(ps[k].1));
    }
    JoinIs(EncodeField, fs, bytes, 0);
  }

  lemma DeletionsWritten(order: seq<(nat, nat)>)
    ensures EncodeFields(Deletions(order), 0) == DeletedBytes(order, 0)
  {
    var fs := Deletions(order);
    var bytes := (k: nat) => DeletedBytes(order, k);
    forall k | 0 <= k < |fs| ensures FieldFirst(EncodeField, fs, bytes, k) {
      assert EncodeField(fs[k]) == [6] + (Varint(order[k].0) + Varint(order[k].1));
    }
    JoinIs(EncodeField, fs, bytes, 0);
  }

  lemma FilesWritten(files: seq<(nat, FileMeta)>)
    ensures EncodeFields(NewFiles(files), 0) == FileBytes(files, 0)
  {
    var fs := NewFiles(files);
    var bytes := (k: nat) => FileBytes(files, k);
    forall k | 0 <= k < |fs| ensures FieldFirst(EncodeField, fs, bytes, k) {
      assert EncodeField(fs[k]) == [7] + (Varint(files[k].0) + EncodeFile(files[k].1));
    }
    JoinIs(EncodeField, fs, bytes, 0);
  }

  lemma JoinOne(enc: Field -> Bytes, f: Field)
    ensures Join(enc, [f], 0) == enc(f)
  {
    assert Join(enc, [f], 1) == [] && enc(f) + [] == enc(f);
  }

  lemma OneWritten(f: Field)
    ensures EncodeFields([f], 0) == EncodeField(f)
  {
    JoinOne(EncodeField, f);
  }

  lemma NumbersWritten(e: Edit)
    ensures EncodeFields(Numbers(e), 0) ==
            NameBytes(e.comparator) + NumberBytes(2, e.logNumber) + NumberBytes(9, e.prevLogNumber)
            + NumberBytes(3, e.nextFile) + NumberBytes(4, e.lastSequence)
  {
    var a := if e.comparator.Some? then [Comparator(e.comparator.value)] else [];
    var b := if e.logNumber.Some? then [LogNumber(e.logNumber.value)] else [];
    var c := if e.prevLogNumber.Some? then [PrevLogNumber(e.prevLogNumber.value)] else [];
    var d := if e.nextFile.Some? then [NextFile(e.nextFile.value)] else [];
    var f := if e.lastSequence.Some? then [LastSequence(e.lastSequence.value)] else [];
    JoinAppend(EncodeField, a + b + c + d, f, 0);
    JoinAppend(EncodeField, a + b + c, d, 0);
    JoinAppend(EncodeField, a + b, c, 0);
    JoinAppend(EncodeField, a, b, 0);
    assert EncodeFields(a, 0) == NameBytes(e.comparator) by {
      if a != [] {
        OneWritten(a[0]);
      }
    }
    assert EncodeFields(b, 0) == NumberBytes(2, e.logNumber) by {
      if b != [] {
        OneWritten(b[0]);
      }
    }
    assert EncodeFields(c, 0) == NumberBytes(9, e.prevLogNumber) by {
      if c != [] {
        OneWritten(c[0]);
      }
    }
    assert EncodeFields(d, 0) == NumberBytes(3, e.nextFile) by {
      if d != [] {
        OneWritten(d[0]);
      }
    }
    assert EncodeFields(f, 0) == NumberBytes(4, e.lastSequence) by {
      if f != [] {
        OneWritten(f[0]);
      }
    }
  }

  lemma EditWritten(e: Edit, order: seq<(nat, nat)>)
    ensures EncodeFields(FieldsOf(e, order), 0) == EditBytes(e, order)
  {
    JoinAppend(EncodeField, Numbers(e) + Pointers(e.pointers) + Deletions(order), NewFiles(e.files), 0);
    JoinAppend(EncodeField, Numbers(e) + Pointers(e.pointers), Deletions(order), 0);
    JoinAppend(EncodeField, Numbers(e), Pointers(e.pointers), 0);
    NumbersWritten(e);
    PointersWritten(e.pointers);
    DeletionsWritten(order);
    FilesWritten(e.files);
  }

  lemma JoinNext(enc: Field -> Bytes, fs: seq<Field>, i: nat, before: Bytes)
    requires i < |fs|
    ensures before + enc(fs[i]) + Join(enc, fs, i + 1) == before + Join(enc, fs, i)
  {
    Assoc(before, enc(fs[i]), Join(enc, fs, i + 1));
  }

  method WriteFields(fields: seq<Field>) returns (dst: Bytes)
    ensures dst == EncodeFields(fields, 0)
  {
    dst := [];
    var i := 0;
    ghost var enc, goal := EncodeField, EncodeFields(fields, 0);
    assert [] + goal == goal;
    while i < |fields|
      invariant i <= |fields| && dst + Join(enc, fields, i) == goal
    {
      JoinNext(enc, fields, i, dst);
      dst := dst + EncodeField(fields[i]);
      i := i + 1;
    }
    assert dst + [] == dst;
  }

  /** The loops of EncodeTo. */
  method EncodeTo(e: Edit, order: seq<(nat, nat)>) returns (dst: Bytes)
    ensures dst == EditBytes(e, order) == EncodeFields(FieldsOf(e, order), 0)
  {
    EditWritten(e, order);
    dst := WriteFields(FieldsOf(e, order));
  }
}
