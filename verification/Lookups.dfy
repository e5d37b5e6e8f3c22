/** Point lookups: in one memtable by its encoded keys, and through memtables and tables from newest to oldest. */
module Lookups {
  import opened Order
  import opened Codec
  import opened Versions
  import opened Keys

  datatype Answer = Found(value: bytes) | Deleted | Missing

  /** What a lookup of `k` at `s` in `store` answers. */
  ghost predicate Answers(store: set<Entry>, k: bytes, s: nat, r: Answer) {
    match r
    case Found(v) => exists e :: Newest(store, k, s, e) && e.kind == Value && e.val == v
    case Deleted => exists e :: Newest(store, k, s, e) && e.kind == Deletion
    case Missing => forall e :: e in store && e.ukey == k ==> e.sn > s
  }

  // ----- one memtable

  /** The encoded keys of a memtable, in the order of its map. */
  ghost predicate Encodes(ms: seq<bytes>, es: seq<Entry>) {
    |ms| == |es| && forall i :: 0 <= i < |es| ==> es[i].sn <= MAX_SEQUENCE_NUMBER && ms[i] == MemtableKey(es[i])
  }

  lemma ComparesToLookup(cmp: Cmp, m: bytes, e: Entry, k: bytes, s: Seq)
    requires e.sn <= MAX_SEQUENCE_NUMBER && m == MemtableKey(e)
    ensures HoldsKey(m) && HoldsKey(LookupKey(k, s, Value))
    ensures CmpMemtableKey(cmp, m, LookupKey(k, s, Value)) == CmpVersions(cmp, e.ukey, e.sn, k, s)
  {
    var l := LookupKey(k, s, Value);
    assert l == l + [];
    hide EncodeVar, EncodeFixed, CmpMemtableKey, HoldsKey, InternalKey;
    MemtableKeysCompare(cmp, m, e.ukey, e.sn, e.kind, EncodeVar(|e.val|) + e.val, l, k, s, Value, []);
  }

  /** The first entry at or after the lookup key, when it has the key looked up, is the newest visible version. */
  lemma FirstIsNewest(cmp: Cmp, es: seq<Entry>, i: nat, k: bytes, s: nat)
    requires TotalOrder(cmp) && Sorted(cmp, es) && i <= |es|
    requires forall j :: 0 <= j < i ==> CmpVersions(cmp, es[j].ukey, es[j].sn, k, s) == Less
    requires i < |es| ==> CmpVersions(cmp, es[i].ukey, es[i].sn, k, s) != Less
    ensures if i < |es| && es[i].ukey == k then Newest(Entries(es), k, s, es[i])
            else Answers(Entries(es), k, s, Missing)
  {
    forall f | f in Entries(es) && f.ukey == k && f.sn <= s
      ensures i < |es| && es[i].ukey == k && f.sn <= es[i].sn
    {
      var j :| 0 <= j < |es| && es[j] == f;
      assert j >= i;
      if i < j {
        assert Before(cmp, es[i], es[j]);
      }
    }
  }

  /** MemTable::get: finds the first key at or after the lookup key and takes it apart. */
  method MemTableGet(cmp: Cmp, ms: seq<bytes>, ghost es: seq<Entry>, k: bytes, s: Seq) returns (r: Answer)
    requires TotalOrder(cmp) && Sorted(cmp, es) && Encodes(ms, es)
    ensures Answers(Entries(es), k, s, r)
  {
    hide TotalOrder, Sorted, MemtableKey, LookupKey, CmpMemtableKey, HoldsKey, CmpVersions, ParseMemtableKey, ParseTag;
    var lkey := LookupKey(k, s, Value);
    var i := 0;
    while i < |ms|
      invariant 0 <= i <= |ms|
      invariant forall j :: 0 <= j < i ==> CmpVersions(cmp, es[j].ukey, es[j].sn, k, s) == Less
    {
      ComparesToLookup(cmp, ms[i], es[i], k, s);
      if CmpMemtableKey(cmp, ms[i], lkey) != Less {
        break;
      }
      i := i + 1;
    }
    FirstIsNewest(cmp, es, i, k, s);
    if i < |ms| {
      MemtableKeyRoundTrip(es[i]);
      Parseable(ms[i]);
      var (keylen, keyoff, tag, vallen, valoff) := ParseMemtableKey(ms[i]);
      if k == ms[i][keyoff..keyoff + keylen] {
        TypeOfTag(es[i].sn, es[i].kind);
        if tag % 256 == 1 {
          return Found(ms[i][valoff..valoff + vallen]);
        } else {
          return Deleted;
        }
      }
    }
    r := Missing;
  }

  lemma Parseable(m: bytes)
    requires HoldsKey(m)
    ensures var (keylen, i) := DecodeVar(m); 8 <= keylen && (|m| > i + keylen - 8 ==> |m| >= i + keylen)
  {
  }

  lemma TypeOfTag(s: Seq, t: Kind)
    ensures Tag(s, t) % 256 == TypeCode(t)
  {
  }

  // ----- from newest to oldest

  /** A key has at most one entry per sequence number. */
  ghost predicate OnePerSeq(store: set<Entry>) {
    forall e, f :: e in store && f in store && e.ukey == f.ukey && e.sn == f.sn ==> e == f
  }

  /** Every version of a key in an earlier store is newer than every version in a later one. */
  ghost predicate NewerFirst(stores: seq<set<Entry>>) {
    forall i, j, e, f :: 0 <= i < j < |stores| && e in stores[i] && f in stores[j] && e.ukey == f.ukey ==> e.sn > f.sn
  }

  ghost function Union(stores: seq<set<Entry>>): set<Entry> {
    set i, e | 0 <= i < |stores| && e in stores[i] :: e
  }

  /** get_internal: the first store that knows the key decides. */
  function FirstAnswer(answers: seq<Answer>): Option<bytes> {
    if answers == [] then None
    else
      match answers[0]
      case Found(v) => Some(v)
      case Deleted => None
      case Missing => FirstAnswer(answers[1..])
  }

  /** Asking the stores in turn reads what one store holding everything would. */
  lemma {:induction false} LayeredGet(stores: seq<set<Entry>>, answers: seq<Answer>, k: bytes, s: nat)
    requires |stores| == |answers| && NewerFirst(stores)
    requires forall i :: 0 <= i < |stores| ==> OnePerSeq(stores[i]) && Answers(stores[i], k, s, answers[i])
    ensures Reads(Union(stores), k, s, FirstAnswer(answers))
    decreases answers
  {
    if answers != [] {
      if answers[0] == Missing {
        LayeredGet(stores[1..], answers[1..], k, s);
        SkipsStore(stores, k, s);
      } else {
        var e :| Newest(stores[0], k, s, e) &&
                 match answers[0] case Found(v) => e.kind == Value && e.val == v case _ => e.kind == Deletion;
        FirstStoreDecides(stores, k, s, e);
      }
    }
  }

  lemma SkipsStore(stores: seq<set<Entry>>, k: bytes, s: nat)
    requires stores != [] && Answers(stores[0], k, s, Missing)
    ensures forall e :: Newest(Union(stores), k, s, e) <==> Newest(Union(stores[1..]), k, s, e)
  {
    var all, rest := Union(stores), Union(stores[1..]);
    forall e: Entry | e.ukey == k && e.sn <= s ensures e in all <==> e in rest {
      if e in all {
        var i :| 0 <= i < |stores| && e in stores[i];
        assert e in stores[1..][i - 1];
      }
      if e in rest {
        var i :| 0 <= i < |stores[1..]| && e in stores[1..][i];
        assert e in stores[i + 1];
      }
    }
  }

  lemma FirstStoreDecides(stores: seq<set<Entry>>, k: bytes, s: nat, e: Entry)
    requires stores != [] && NewerFirst(stores) && OnePerSeq(stores[0]) && Newest(stores[0], k, s, e)
    ensures Newest(Union(stores), k, s, e)
    ensures forall f :: Newest(Union(stores), k, s, f) ==> f == e
  {
    assert e in Union(stores);
    forall f | f in Union(stores) && f.ukey == k && f.sn <= s
      ensures f.sn <= e.sn && (f.sn == e.sn ==> f in stores[0])
    {
      var i :| 0 <= i < |stores| && f in stores[i];
    }
  }
}
