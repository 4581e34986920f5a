/** The manifest as a file: edits encoded, framed as log records, read back and replayed. */
module ManifestFile {
  import opened Wrappers
  import opened Coding
  import opened VersionEdits
  import opened Manifest
  import opened VersionSets
  import Log
  import LogTorn

  /** The numbers of an edit fit their types and its levels exist. */
  ghost predicate FitsTypes(e: Edit) {
    && (forall f :: f in FieldsOf(e, []) ==> SmallField(f))
    && forall d :: d in e.deleted ==> SmallField(Deleted(d.0, d.1))
  }

  lemma {:induction false} ElementsAre(order: seq<(nat, nat)>, i: nat)
    requires i <= |order|
    ensures forall j :: i <= j < |order| ==> order[j] in Elements(order, i)
    decreases |order| - i
  {
    if i < |order| {
      ElementsAre(order, i + 1);
    }
  }

  lemma FitsAnyOrder(e: Edit, order: seq<(nat, nat)>)
    requires FitsTypes(e) && Elements(order, 0) == e.deleted
    ensures SmallEdit(e, order)
  {
    ElementsAre(order, 0);
    forall f | f in FieldsOf(e, order) ensures SmallField(f) {
      if f in Deletions(order) {
        var i :| 0 <= i < |order| && Deletions(order)[i] == f;
        assert order[i] in e.deleted;
      } else {
        assert f in FieldsOf(e, []);
      }
    }
  }

  /** The set of deleted files as a list; their order does not matter to the reader. */
  method ListDeleted(s: set<(nat, nat)>) returns (order: seq<(nat, nat)>)
    ensures Elements(order, 0) == s
  {
    order := [];
    var left := s;
    while left != {}
      invariant Elements(order, 0) + left == s
      decreases left
    {
      var d :| d in left;
      assert ([d] + order)[1..] == order;
      ElementsCons(d, order);
      order := [d] + order;
      left := left - {d};
    }
  }

  lemma ElementsCons(d: (nat, nat), order: seq<(nat, nat)>)
    ensures Elements([d] + order, 0) == {d} + Elements(order, 0)
  {
    ElementsShift([d] + order, order, 0);
  }

  lemma {:induction false} ElementsShift(more: seq<(nat, nat)>, order: seq<(nat, nat)>, i: nat)
    requires |more| == |order| + 1 && more[1..] == order && i <= |order|
    ensures Elements(more, i + 1) == Elements(order, i)
    decreases |order| - i
  {
    if i < |order| {
      ElementsShift(more, order, i + 1);
      assert more[i + 1] == more[1..][i];
    }
  }

  /** One manifest record. */
  method EncodeEdit(e: Edit) returns (record: Bytes)
    requires FitsTypes(e)
    ensures ReadEdit(record) == Some(e)
  {
    var order := ListDeleted(e.deleted);
    FitsAnyOrder(e, order);
    record := EncodeTo(e, order);
    EditRoundTrip(e, order);
  }

  /** The records that hold these edits. */
  ghost predicate HoldEdits(records: seq<Bytes>, m: seq<Edit>) {
    |records| == |m| && forall i :: 0 <= i < |m| ==> ReadEdit(records[i]) == Some(m[i])
  }

  lemma HoldMore(records: seq<Bytes>, m: seq<Edit>, i: nat, r: Bytes)
    requires i < |m| && HoldEdits(records, m[..i]) && ReadEdit(r) == Some(m[i])
    ensures HoldEdits(records + [r], m[..i + 1])
  {
  }

  method AppendEdit(log: Log.Writer, e: Edit, ghost records: seq<Bytes>) returns (r: Bytes)
    requires log.Valid() && FitsTypes(e) && log.dest == Log.Encode(log.crc, 0, records)
    modifies log
    ensures log.Valid() && ReadEdit(r) == Some(e) && log.dest == Log.Encode(log.crc, 0, records + [r])
  {
    r := EncodeEdit(e);
    Log.EncodeSnoc(log.crc, 0, records, r, log.dest, |log.dest|);
    log.AddRecord(r);
  }

  /** The manifest as LogAndApply writes it, edit by edit. */
  method WriteManifest(crc: Log.Crc, m: seq<Edit>) returns (file: Bytes, ghost records: seq<Bytes>)
    requires forall i :: 0 <= i < |m| ==> FitsTypes(m[i])
    ensures HoldEdits(records, m) && file == Log.Encode(crc, 0, records)
  {
    var log := new Log.Writer(crc, []);
    records := [];
    for i := 0 to |m|
      invariant log.Valid() && log.crc == crc && fresh(log)
      invariant HoldEdits(records, m[..i]) && log.dest == Log.Encode(crc, 0, records)
    {
      var r := AppendEdit(log, m[i], records);
      HoldMore(records, m, i, r);
      records := records + [r];
    }
    file := log.dest;
    assert m[..|m|] == m;
  }

  lemma GoodPrefix(m: seq<Edit>, k: nat)
    requires GoodManifest(m) && k <= |m|
    ensures GoodManifest(m[..k])
  {
    var p := m[..k];
    forall i, l | 0 <= i < k && 0 <= l < NUM_LEVELS ensures FreshAt(Known(p, i, l), p[i].files, |p[i].files|, l) {
      KnownSame(p, m, i, l);
    }
  }

  lemma SameEdits(records: seq<Bytes>, m: seq<Edit>, edits: seq<Edit>, k: nat)
    requires HoldEdits(records, m) && k <= |m| && Records(ReadEdit, records[..k], edits, k)
    ensures edits == m[..k]
  {
    forall i | 0 <= i < k ensures edits[i] == m[i] {
      assert records[..k][i] == records[i];
    }
  }

  lemma AllRead(records: seq<Bytes>, m: seq<Edit>, read: seq<Bytes>, k: nat)
    requires HoldEdits(records, m) && k <= |m| && read == records[..k]
    ensures forall i :: 0 <= i < |read| ==> ReadEdit(read[i]) != None
  {
    forall i | 0 <= i < |read| ensures ReadEdit(read[i]) != None {
      assert ReadEdit(records[i]) == Some(m[i]);
    }
  }

  /** The edits in a manifest file of which a crash may have left only the first `cut` bytes:
      those whose records lie wholly inside. */
  method ReadManifest(crc: Log.Crc, file: Bytes, ghost whole: Bytes, ghost records: seq<Bytes>, ghost m: seq<Edit>)
    returns (edits: seq<Edit>, ghost k: nat)
    requires HoldEdits(records, m) && whole == Log.Encode(crc, 0, records) && file <= whole
    ensures k <= |m| && edits == m[..k] && (file == whole ==> k == |m|)
    ensures |Log.Encode(crc, 0, records[..k])| <= |file|
    ensures k < |m| ==> |file| < |Log.Encode(crc, 0, records[..k + 1])|
  {
    k := LogTorn.TornLog(crc, records, |file|);
    assert whole[..|file|] == file;
    if k < |m| {
      Log.EncodePrefix(crc, 0, records, k + 1);
    }
    var read, reports := LogTorn.ReadFile(crc, file);
    var r := DecodeAll(read);
    AllRead(records, m, read, k);
    edits := r.value;
    SameEdits(records, m, edits, k);
  }

  /** Recover from the first `cut` bytes of the manifest: the version and the numbers after the
      edits wholly inside. */
  method ReopenTorn(crc: Log.Crc, vs: VersionSet, cut: nat, comparator: Bytes)
    returns (r: Option<Recovered>, ghost k: nat, ghost records: seq<Bytes>)
    requires vs.Valid() && forall i :: 0 <= i < |vs.manifest| ==> FitsTypes(vs.manifest[i])
    requires SameComparator(vs.manifest, |vs.manifest|, comparator)
    ensures HoldEdits(records, vs.manifest) && k <= |vs.manifest| && |Log.Encode(crc, 0, records[..k])| <= cut
    ensures k < |vs.manifest| ==> cut < |Log.Encode(crc, 0, records[..k + 1])|
    ensures var marks := MarksAfter(vs.manifest[..k], k);
      r.Some? <==> marks.next.Some? && marks.log.Some? && marks.last.Some?
    ensures r.Some? ==> Holds(vs.less, r.value.files, vs.manifest[..k], k)
    ensures r.Some? ==> var marks := MarksAfter(vs.manifest[..k], k);
      && marks.log == Some(r.value.logNumber) && marks.last == Some(r.value.lastSequence)
      && marks.next == Some(r.value.nextFile - 1)
  {
    var whole;
    whole, records := WriteManifest(crc, vs.manifest);
    var file := if cut < |whole| then whole[..cut] else whole;
    var edits;
    edits, k := ReadManifest(crc, file, whole, records, vs.manifest);
    GoodPrefix(vs.manifest, k);
    r := Recover(vs.less, edits, comparator);
  }

  /** Closing and reopening through the bytes of the manifest: the version and the log numbers are
      those LogAndApply left, and the last sequence and the next file number those it recorded. */
  method ReopenFile(crc: Log.Crc, vs: VersionSet, comparator: Bytes) returns (r: Option<Recovered>)
    requires vs.Valid() && vs.manifest != [] && forall i :: 0 <= i < |vs.manifest| ==> FitsTypes(vs.manifest[i])
    requires SameComparator(vs.manifest, |vs.manifest|, comparator)
    ensures r.Some? && r.value.files == vs.current
    ensures r.value.logNumber == vs.logNumber && r.value.prevLogNumber == vs.prevLogNumber
    ensures r.value.lastSequence == vs.recordedLast && r.value.nextFile == vs.recordedNext + 1
  {
    var file, records := WriteManifest(crc, vs.manifest);
    var edits, k := ReadManifest(crc, file, file, records, vs.manifest);
    assert vs.manifest[..k] == vs.manifest;
    r := Recover(vs.less, edits, comparator);
    SameLists(vs.less, r.value.files, vs.current, vs.manifest, |vs.manifest|);
  }
}
