/**
  The multi-version store that snapshots, iterators and compactions all refer to: a set of
  (user key, sequence number, put or deletion, value) entries, read as "the newest entry at or
  below a sequence number".
 */
module Versions {
  import opened Order

  const MAX_SEQUENCE_NUMBER: nat := 0xFF_FFFF_FFFF_FFFF

  datatype Kind = Deletion | Value

  datatype Entry = Entry(ukey: bytes, sn: nat, kind: Kind, val: bytes)

  /** Internal key order: user keys ascending, sequence numbers descending. */
  predicate Before(cmp: Cmp, a: Entry, b: Entry) {
    match cmp(a.ukey, b.ukey)
    case Less => true
    case Greater => false
    case Equal => a.sn > b.sn
  }

  ghost predicate Sorted(cmp: Cmp, es: seq<Entry>) {
    forall i, j {:trigger Before(cmp, es[i], es[j])} :: 0 <= i < j < |es| ==> Before(cmp, es[i], es[j])
  }

  ghost function Entries(es: seq<Entry>): set<Entry> {
    set e | e in es
  }

  /** `e` is the newest entry for `k` that a reader at sequence number `s` may see. */
  ghost predicate Newest(store: set<Entry>, k: bytes, s: nat, e: Entry) {
    && e in store && e.ukey == k && e.sn <= s
    && forall f :: f in store && f.ukey == k && f.sn <= s ==> f.sn <= e.sn
  }

  /** Reading `k` at `s` gives `r`: the value of the newest entry, or nothing if that entry is a deletion or missing. */
  ghost predicate Reads(store: set<Entry>, k: bytes, s: nat, r: Option<bytes>) {
    match r
    case Some(v) => exists e :: Newest(store, k, s, e) && e.kind == Value && e.val == v
    case None => forall e :: Newest(store, k, s, e) ==> e.kind == Deletion
  }

  // ----- the snapshot view of a sorted stream of entries

  /** The entry at `i` is what a reader at `snap` sees for its user key. */
  ghost predicate Shown(es: seq<Entry>, snap: nat, i: int) {
    && 0 <= i < |es| && es[i].kind == Value && es[i].sn <= snap
    && forall j :: 0 <= j < i && es[j].ukey == es[i].ukey ==> es[j].sn > snap
  }

  /** The key/value pairs a snapshot shows among the first `n` entries. */
  ghost function ViewUpTo(es: seq<Entry>, snap: nat, n: nat): seq<(bytes, bytes)>
    requires n <= |es|
  {
    if n == 0 then []
    else ViewUpTo(es, snap, n - 1) + if Shown(es, snap, n - 1) then [(es[n - 1].ukey, es[n - 1].val)] else []
  }

  ghost function View(es: seq<Entry>, snap: nat): seq<(bytes, bytes)> {
    ViewUpTo(es, snap, |es|)
  }

  /** Between two cut points the view grows by nothing when no entry in between is shown. */
  lemma {:induction false} ViewSkips(es: seq<Entry>, snap: nat, m: nat, n: nat)
    requires m <= n <= |es|
    requires forall i :: m <= i < n ==> !Shown(es, snap, i)
    ensures ViewUpTo(es, snap, n) == ViewUpTo(es, snap, m)
  {
    if m < n {
      ViewSkips(es, snap, m, n - 1);
      assert !Shown(es, snap, n - 1);
    }
  }

  lemma {:induction false} ViewPrefix(es: seq<Entry>, snap: nat, m: nat, n: nat)
    requires m <= n <= |es|
    ensures ViewUpTo(es, snap, m) <= ViewUpTo(es, snap, n)
  {
    if m < n {
      ViewPrefix(es, snap, m, n - 1);
    }
  }

  /** A shown entry sits in the view at the number of shown entries before it. */
  lemma ViewAt(es: seq<Entry>, snap: nat, i: nat)
    requires Shown(es, snap, i)
    ensures |ViewUpTo(es, snap, i)| < |View(es, snap)|
    ensures View(es, snap)[|ViewUpTo(es, snap, i)|] == (es[i].ukey, es[i].val)
  {
    ViewPrefix(es, snap, i + 1, |es|);
  }

  /** Every pair of the view comes from a shown entry. */
  lemma {:induction false} ViewOrigin(es: seq<Entry>, snap: nat, n: nat, p: nat) returns (i: nat)
    requires n <= |es| && p < |ViewUpTo(es, snap, n)|
    ensures i < n && Shown(es, snap, i) && p == |ViewUpTo(es, snap, i)|
    ensures ViewUpTo(es, snap, n)[p] == (es[i].ukey, es[i].val)
  {
    if p < |ViewUpTo(es, snap, n - 1)| {
      i := ViewOrigin(es, snap, n - 1, p);
    } else {
      i := n - 1;
    }
  }

  lemma ShownIsNewest(cmp: Cmp, es: seq<Entry>, snap: nat, i: nat)
    requires TotalOrder(cmp) && Sorted(cmp, es) && Shown(es, snap, i)
    ensures Newest(Entries(es), es[i].ukey, snap, es[i])
  {
    forall f | f in Entries(es) && f.ukey == es[i].ukey && f.sn <= snap
      ensures f.sn <= es[i].sn
    {
      var j :| 0 <= j < |es| && es[j] == f;
      if i < j {
        assert Before(cmp, es[i], es[j]);
      }
    }
  }

  lemma NewestIsShown(cmp: Cmp, es: seq<Entry>, snap: nat, i: nat)
    requires TotalOrder(cmp) && Sorted(cmp, es) && i < |es|
    requires Newest(Entries(es), es[i].ukey, snap, es[i]) && es[i].kind == Value
    ensures Shown(es, snap, i)
  {
    forall j | 0 <= j < i && es[j].ukey == es[i].ukey
      ensures es[j].sn > snap
    {
      assert Before(cmp, es[j], es[i]);
      assert es[j] in Entries(es);
    }
  }

  /** The view lists strictly ascending user keys, and exactly the pairs that reading the store at `snap` gives. */
  lemma ViewIsSnapshot(cmp: Cmp, es: seq<Entry>, snap: nat)
    requires TotalOrder(cmp) && Sorted(cmp, es)
    ensures forall p, q :: 0 <= p < q < |View(es, snap)| ==> cmp(View(es, snap)[p].0, View(es, snap)[q].0) == Less
    ensures forall k, v :: (k, v) in View(es, snap) <==> Reads(Entries(es), k, snap, Some(v))
  {
    var view := View(es, snap);
    forall p, q | 0 <= p < q < |view| ensures cmp(view[p].0, view[q].0) == Less {
      var i := ViewOrigin(es, snap, |es|, p);
      var j := ViewOrigin(es, snap, |es|, q);
      if j <= i {
        ViewPrefix(es, snap, j, i);
      }
      assert Before(cmp, es[i], es[j]);
    }
    forall k, v ensures (k, v) in view <==> Reads(Entries(es), k, snap, Some(v)) {
      if (k, v) in view {
        var p :| 0 <= p < |view| && view[p] == (k, v);
        var i := ViewOrigin(es, snap, |es|, p);
        ShownIsNewest(cmp, es, snap, i);
      }
      if Reads(Entries(es), k, snap, Some(v)) {
        var e :| Newest(Entries(es), k, snap, e) && e.kind == Value && e.val == v;
        var i :| 0 <= i < |es| && es[i] == e;
        NewestIsShown(cmp, es, snap, i);
        ViewAt(es, snap, i);
      }
    }
  }
}
