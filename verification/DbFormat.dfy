/** Internal keys: the (user key, sequence, type) triples that every layer of
    the database sorts by, and what it means for an entry to be the newest one
    visible at a snapshot. */
module DbFormat {
  import opened Wrappers

  const NUM_LEVELS := 8
  const MAX_MEM_COMPACT_LEVEL := 2
  const MAX_SEQUENCE: nat := 0xFF_FFFF_FFFF_FFFF

  /** The user comparator is a parameter of the database and only its total
      order matters here; integers under < are one such order. */
  type UserKey = int

  datatype ValueType = Deletion | Value

  datatype InternalKey = InternalKey(key: UserKey, sn: nat, kind: ValueType)

  datatype Entry = Entry(key: UserKey, sn: nat, kind: ValueType, value: string)

  function IKey(e: Entry): InternalKey {
    InternalKey(e.key, e.sn, e.kind)
  }

  /** The fixed64 trailer of an internal key. */
  function Tag(k: InternalKey): nat {
    k.sn * 256 + (if k.kind.Value? then 1 else 0)
  }

  /** Increasing user key, then decreasing tag. */
  predicate Less(a: InternalKey, b: InternalKey) {
    a.key < b.key || (a.key == b.key && Tag(a) > Tag(b))
  }

  predicate LessE(a: Entry, b: Entry) {
    Less(IKey(a), IKey(b))
  }

  /** The key a Get at snapshot s seeks to. */
  function LookupKey(k: UserKey, s: nat): InternalKey {
    InternalKey(k, s, Value)
  }

  predicate SortedEntries(es: seq<Entry>) {
    forall i, j :: 0 <= i < j < |es| ==> LessE(es[i], es[j])
  }

  /** e is what a reader of key k at snapshot s must see if the store holds exactly
      the entries of S. */
  ghost predicate Newest(S: set<Entry>, k: UserKey, s: nat, e: Entry) {
    && e in S && e.key == k && e.sn <= s
    && forall f :: f in S && f.key == k && f.sn <= s ==> f.sn <= e.sn
  }

  /** No two different entries carry the same key and sequence number. */
  ghost predicate UniqueSeqs(S: set<Entry>) {
    forall a, b :: a in S && b in S && a.key == b.key && a.sn == b.sn ==> a == b
  }

  /** The value a reader gets: absent when nothing is visible or when the newest
      visible entry is a deletion. */
  ghost predicate Reads(S: set<Entry>, k: UserKey, s: nat, r: Option<string>) {
    match r
    case Some(v) => exists e :: Newest(S, k, s, e) && e.kind.Value? && e.value == v
    case None => forall e :: Newest(S, k, s, e) ==> e.kind.Deletion?
  }

  /** Comparing tags is the same as comparing sequence numbers and then types. */
  lemma TagOrder(a: InternalKey, b: InternalKey)
    ensures Tag(a) > Tag(b) <==> a.sn > b.sn || (a.sn == b.sn && a.kind.Value? && b.kind.Deletion?)
  {
  }

  /** An entry at or after the lookup key with the same user key is exactly a
      visible one. */
  lemma VisibleIffNotBefore(e: Entry, k: UserKey, s: nat)
    requires e.key == k
    ensures !Less(IKey(e), LookupKey(k, s)) <==> e.sn <= s
  {
  }

  /** A nonempty set of visible entries has a newest one. */
  lemma NewestExists(S: set<Entry>, k: UserKey, s: nat, w: Entry) returns (e: Entry)
    requires w in S && w.key == k && w.sn <= s
    ensures Newest(S, k, s, e)
    decreases S
  {
    var rest := S - {w};
    if f :| f in rest && f.key == k && f.sn <= s {
      var m := NewestExists(rest, k, s, f);
      e := if w.sn > m.sn then w else m;
    } else {
      e := w;
    }
  }

  /** Reading is a function: every key has exactly one result at a snapshot. */
  lemma ReadsTotal(S: set<Entry>, k: UserKey, s: nat) returns (r: Option<string>)
    ensures Reads(S, k, s, r)
  {
    if w :| w in S && w.key == k && w.sn <= s {
      var e := NewestExists(S, k, s, w);
      if e.kind.Value? {
        r := Some(e.value);
      } else if v :| Newest(S, k, s, v) && v.kind.Value? {
        r := Some(v.value);
      } else {
        r := None;
      }
    } else {
      r := None;
    }
  }

  lemma ReadsUnique(S: set<Entry>, k: UserKey, s: nat, r: Option<string>, r': Option<string>)
    requires UniqueSeqs(S)
    requires Reads(S, k, s, r) && Reads(S, k, s, r')
    ensures r == r'
  {
    if r.Some? {
      var e :| Newest(S, k, s, e) && e.kind.Value? && e.value == r.value;
    }
    if r'.Some? {
      var e' :| Newest(S, k, s, e') && e'.kind.Value? && e'.value == r'.value;
    }
  }
}
