/** Point reads of the whole database: through memtable and tables, after any session of writes and restarts. */
module Gets {
  import opened Order
  import opened Versions
  import opened Keys
  import opened Lookups
  import opened WriteBatches
  import opened Recovery
  import opened Durability

  // ----- through the tables

  /**
    What a table returns for a lookup: its first entry at or after the lookup key, of whatever key,
    or nothing if that is not a version of the key looked up.
   */
  ghost predicate TableReturns(cmp: Cmp, es: seq<Entry>, k: bytes, s: nat, r: Option<Entry>) {
    exists i: nat :: FirstAt(cmp, es, k, s, i) &&
      match r
      case Some(e) => i < |es| && e == es[i]
      case None => i < |es| ==> es[i].ukey != k
  }

  /** The entries before `i` are before the lookup key, and the one at `i` is not. */
  ghost predicate FirstAt(cmp: Cmp, es: seq<Entry>, k: bytes, s: nat, i: nat) {
    && i <= |es|
    && (forall j :: 0 <= j < i ==> CmpVersions(cmp, es[j].ukey, es[j].sn, k, s) == Less)
    && (i < |es| ==> CmpVersions(cmp, es[i].ukey, es[i].sn, k, s) != Less)
  }

  /** What the returned entry tells about the key. */
  function Told(r: Option<Entry>, k: bytes): Answer {
    if r.None? || r.value.ukey != k then Missing
    else if r.value.kind == Value then Found(r.value.val)
    else Deleted
  }

  function AllTold(rs: seq<Option<Entry>>, k: bytes): (r: seq<Answer>)
    ensures |r| == |rs|
  {
    seq(|rs|, i requires 0 <= i < |rs| => Told(rs[i], k))
  }

  lemma TableAnswers(cmp: Cmp, es: seq<Entry>, k: bytes, s: nat, r: Option<Entry>)
    requires TotalOrder(cmp) && Sorted(cmp, es) && TableReturns(cmp, es, k, s, r)
    ensures Answers(Entries(es), k, s, Told(r, k))
  {
    var i: nat :| FirstAt(cmp, es, k, s, i) &&
      match r case Some(e) => i < |es| && e == es[i] case None => i < |es| ==> es[i].ukey != k;
    FirstIsNewest(cmp, es, i, k, s);
  }

  /** The first table to return anything decisive returns the deletion of another key. */
  ghost predicate MeetsStray(rs: seq<Option<Entry>>, k: bytes) {
    exists i :: 0 <= i < |rs| && StrayAmong(rs, k, i)
  }

  ghost predicate StrayAmong(rs: seq<Option<Entry>>, k: bytes, i: nat)
    requires i < |rs|
  {
    && rs[i].Some? && rs[i].value.kind == Deletion && rs[i].value.ukey != k
    && forall j :: 0 <= j < i ==> Told(rs[j], k) == Missing
  }

  /**
    Asks the tables in turn. A deletion ends the search even if it is of another key, so the answer
    is that of the first table that knows the key exactly if there is none or no such deletion is met.
   */
  method GetFromTables(rs: seq<Option<Entry>>, k: bytes) returns (r: Option<bytes>)
    ensures r == FirstAnswer(AllTold(rs, k)) <==> FirstAnswer(AllTold(rs, k)) == None || !MeetsStray(rs, k)
    ensures MeetsStray(rs, k) ==> r == None
  {
    for i := 0 to |rs|
      invariant forall j :: 0 <= j < i ==> Told(rs[j], k) == Missing && (rs[j].Some? ==> rs[j].value.kind == Value)
      invariant FirstAnswer(AllTold(rs, k)) == FirstAnswer(AllTold(rs, k)[i..])
    {
      assert AllTold(rs, k)[i..][0] == Told(rs[i], k) && AllTold(rs, k)[i..][1..] == AllTold(rs, k)[i + 1..];
      if rs[i].Some? {
        if rs[i].value.kind == Value && rs[i].value.ukey == k {
          return Some(rs[i].value.val);
        } else if rs[i].value.kind == Deletion {
          assert rs[i].value.ukey != k ==> StrayAmong(rs, k, i);
          return None;
        }
      }
    }
    r := None;
  }

  /** A table with the deletion of a greater key hides an older table's put. */
  method StrayDeletionHides(cmp: Cmp) returns (r: Option<bytes>)
    requires TotalOrder(cmp) && cmp([1], [2]) == Less && cmp([2], [3]) == Less
    ensures r == None
    ensures Reads(Entries([Entry([1], 2, Value, [7]), Entry([3], 3, Deletion, []), Entry([2], 1, Value, [8])]), [2],
            3, Some([8]))
    ensures TableReturns(cmp, [Entry([1], 2, Value, [7]), Entry([3], 3, Deletion, [])], [2], 3,
            Some(Entry([3], 3, Deletion, [])))
    ensures TableReturns(cmp, [Entry([2], 1, Value, [8])], [2], 3, Some(Entry([2], 1, Value, [8])))
  {
    var newer, older := [Entry([1], 2, Value, [7]), Entry([3], 3, Deletion, [])], [Entry([2], 1, Value, [8])];
    assert FirstAt(cmp, newer, [2], 3, 1) && FirstAt(cmp, older, [2], 3, 0);
    assert Newest(Entries([newer[0], newer[1], older[0]]), [2], 3, older[0]);
    var rs := [Some(newer[1]), Some(older[0])];
    assert StrayAmong(rs, [2], 0);
    assert AllTold(rs, [2])[1..] == [Found([8])] && AllTold(rs, [2])[0] == Missing;
    r := GetFromTables(rs, [2]);
  }

  // ----- what the operations say

  /** What the first `n` operations leave for a key: the value of the last put, nothing after a deletion. */
  function LastOp(ops: seq<BatchOp>, k: bytes, n: nat): Option<bytes>
    requires n <= |ops|
  {
    if n == 0 then None
    else if ops[n - 1].key == k then (if ops[n - 1].Put? then Some(ops[n - 1].val) else None)
    else LastOp(ops, k, n - 1)
  }

  /** The operations a reader at `s` sees. */
  function SeenOps(ops: seq<BatchOp>, s: nat): (n: nat)
    ensures n <= |ops|
  {
    if s < |ops| then s else |ops|
  }

  /** Reading the numbered operations at `s` gives what the last operation numbered up to `s` says. */
  lemma {:induction false} ReadsLastOp(ops: seq<BatchOp>, k: bytes, s: nat, n: nat)
    requires n <= SeenOps(ops, s)
    requires forall i :: n <= i < SeenOps(ops, s) ==> ops[i].key != k
    ensures Reads(Entries(Numbered(ops, 1)), k, s, LastOp(ops, k, n))
    decreases n
  {
    var es := Numbered(ops, 1);
    if n == 0 {
      forall e | e in Entries(es) && e.ukey == k ensures e.sn > s {
        var i :| 0 <= i < |es| && es[i] == e;
      }
    } else if ops[n - 1].key == k {
      var e := es[n - 1];
      assert e in Entries(es);
      forall f | f in Entries(es) && f.ukey == k && f.sn <= s ensures f.sn <= e.sn && (f.sn == e.sn ==> f == e) {
        var i :| 0 <= i < |es| && es[i] == f;
      }
      assert Newest(Entries(es), k, s, e);
    } else {
      ReadsLastOp(ops, k, s, n - 1);
    }
  }

  lemma ReadsOnce(store: set<Entry>, k: bytes, s: nat, a: Option<bytes>, b: Option<bytes>)
    requires OnePerSeq(store) && Reads(store, k, s, a) && Reads(store, k, s, b)
    ensures a == b
  {
    if a.Some? {
      var e :| Newest(store, k, s, e) && e.kind == Value && e.val == a.value;
      assert forall f :: Newest(store, k, s, f) ==> f == e;
    }
  }

  // ----- through the whole database

  /** The stores in the order they are asked: the memtable, then the tables from the newest to the oldest. */
  ghost function Layers(tables: seq<seq<Entry>>, mem: seq<Entry>): (r: seq<seq<Entry>>)
    ensures |r| == |tables| + 1 && r[0] == mem
    ensures forall i :: 0 < i < |r| ==> r[i] == tables[|tables| - i]
  {
    [mem] + seq(|tables|, i requires 0 <= i < |tables| => tables[|tables| - 1 - i])
  }

  ghost function Sets(layers: seq<seq<Entry>>): (r: seq<set<Entry>>)
    ensures |r| == |layers|
  {
    seq(|layers|, i requires 0 <= i < |layers| => Entries(layers[i]))
  }

  /** Where the entries of a table are in the sequence of all. */
  ghost function Start(tables: seq<seq<Entry>>, t: nat): (n: nat)
    requires t <= |tables|
    ensures n <= |AllOf(tables)|
  {
    StartBounded(tables, t);
    |AllOf(tables[..t])|
  }

  lemma StartBounded(tables: seq<seq<Entry>>, t: nat)
    requires t <= |tables|
    ensures |AllOf(tables[..t])| <= |AllOf(tables)|
    ensures AllOf(tables)[..|AllOf(tables[..t])|] == AllOf(tables[..t])
  {
    AllOfAppend(tables[..t], tables[t..]);
    assert tables[..t] + tables[t..] == tables;
  }

  lemma TableAt(tables: seq<seq<Entry>>, t: nat)
    requires t < |tables|
    ensures Start(tables, t) + |tables[t]| == Start(tables, t + 1) <= |AllOf(tables)|
    ensures AllOf(tables)[Start(tables, t)..Start(tables, t + 1)] == tables[t]
  {
    StartBounded(tables, t);
    StartBounded(tables, t + 1);
    assert tables[..t + 1][..t] == tables[..t];
    hide AllOf;
    var all, a, b := AllOf(tables), Start(tables, t), Start(tables, t + 1);
    assert AllOf(tables[..t + 1]) == AllOf(tables[..t]) + tables[t] by { AllOfStep(tables, t); }
    assert all[a..b] == all[..b][a..];
  }

  lemma AllOfStep(tables: seq<seq<Entry>>, t: nat)
    requires t < |tables|
    ensures AllOf(tables[..t + 1]) == AllOf(tables[..t]) + tables[t]
  {
    assert tables[..t + 1][..t] == tables[..t];
  }

  lemma {:induction false} StartsRise(tables: seq<seq<Entry>>, t: nat, u: nat)
    requires t <= u <= |tables|
    ensures Start(tables, t) <= Start(tables, u)
    decreases u - t
  {
    if t < u {
      StartsRise(tables, t, u - 1);
      TableAt(tables, u - 1);
    }
  }

  /** Entries of a later asked layer were written before those of an earlier asked one. */
  lemma LayersNewerFirst(tables: seq<seq<Entry>>, mem: seq<Entry>, n: nat)
    requires Rising(AllOf(tables) + mem, 0, n)
    ensures NewerFirst(Sets(Layers(tables, mem)))
  {
    var layers, all := Layers(tables, mem), AllOf(tables) + mem;
    hide AllOf, Start, Layers;
    forall i, j, e: Entry, f: Entry | 0 <= i < j < |layers| && e in layers[i] && f in layers[j] ensures e.sn > f.sn {
      var p := Place(tables, mem, i, e);
      var q := Place(tables, mem, j, f);
      StartsRise(tables, |tables| - j + 1, |tables| - i);
    }
  }

  /** Where an entry of a layer is among all; the layers lie one before the other. */
  lemma Place(tables: seq<seq<Entry>>, mem: seq<Entry>, i: nat, e: Entry) returns (p: nat)
    requires i <= |tables| && e in Layers(tables, mem)[i]
    ensures p < |AllOf(tables) + mem| && (AllOf(tables) + mem)[p] == e
    ensures Start(tables, |tables| - i) <= p && (i > 0 ==> p < Start(tables, |tables| - i + 1))
  {
    var all := AllOf(tables) + mem;
    if i == 0 {
      var x :| 0 <= x < |mem| && mem[x] == e;
      p := |AllOf(tables)| + x;
      StartBounded(tables, |tables|);
    } else {
      var t := |tables| - i;
      var x :| 0 <= x < |tables[t]| && tables[t][x] == e;
      TableAt(tables, t);
      hide AllOf, Start;
      p := Start(tables, t) + x;
      assert AllOf(tables)[Start(tables, t)..Start(tables, t + 1)][x] == e;
    }
  }

  /** The layers together hold everything stored. */
  lemma LayersHoldAll(tables: seq<seq<Entry>>, mem: seq<Entry>)
    ensures Union(Sets(Layers(tables, mem))) == Entries(AllOf(tables) + mem)
  {
    var layers, all := Layers(tables, mem), AllOf(tables) + mem;
    forall e | e in Union(Sets(layers)) ensures e in Entries(all) {
      var i :| 0 <= i < |layers| && e in Sets(layers)[i];
      var p := Place(tables, mem, i, e);
    }
    forall e | e in Entries(all) ensures e in Union(Sets(layers)) {
      if e in mem {
        assert e in Sets(layers)[0];
      } else {
        var t := TableOf(tables, e);
        assert e in Sets(layers)[|tables| - t];
      }
    }
  }

  lemma {:induction false} TableOf(tables: seq<seq<Entry>>, e: Entry) returns (t: nat)
    requires e in AllOf(tables)
    ensures t < |tables| && e in tables[t]
    decreases |tables|
  {
    var n := |tables| - 1;
    if e in tables[n] {
      t := n;
    } else {
      t := TableOf(tables[..n], e);
    }
  }

  lemma OnePerRising(es: seq<Entry>, n: nat)
    requires Rising(es, 0, n)
    ensures OnePerSeq(Entries(es))
  {
    forall e, f | e in Entries(es) && f in Entries(es) && e.sn == f.sn ensures e == f {
      var i :| 0 <= i < |es| && es[i] == e;
      var j :| 0 <= j < |es| && es[j] == f;
    }
  }

  lemma LayersOnePerSeq(tables: seq<seq<Entry>>, mem: seq<Entry>, n: nat)
    requires Rising(AllOf(tables) + mem, 0, n)
    ensures forall i :: 0 <= i <= |tables| ==> OnePerSeq(Sets(Layers(tables, mem))[i])
  {
    LayersHoldAll(tables, mem);
    OnePerRising(AllOf(tables) + mem, n);
    hide AllOf, Layers, Rising;
    var sets := Sets(Layers(tables, mem));
    forall i | 0 <= i <= |tables| ensures OnePerSeq(sets[i]) {
      assert forall e :: e in sets[i] ==> e in Union(sets);
    }
  }

  /** The first layer that knows a key says what the last operation on it numbered up to the snapshot says. */
  lemma FirstLayerReadsLastOp(tables: seq<seq<Entry>>, mem: seq<Entry>, ops: seq<BatchOp>, answers: seq<Answer>,
                              k: bytes, s: nat)
    requires AllOf(tables) + mem == Numbered(ops, 1) && |answers| == |tables| + 1
    requires forall i :: 0 <= i <= |tables| ==> Answers(Sets(Layers(tables, mem))[i], k, s, answers[i])
    ensures FirstAnswer(answers) == LastOp(ops, k, SeenOps(ops, s))
  {
    var n := SeenOps(ops, s);
    assert Rising(Numbered(ops, 1), 0, |ops|);
    LayersNewerFirst(tables, mem, |ops|);
    LayersHoldAll(tables, mem);
    LayersOnePerSeq(tables, mem, |ops|);
    OnePerRising(Numbered(ops, 1), |ops|);
    ReadsLastOp(ops, k, s, n);
    hide AllOf, Layers, Rising, Answers, Reads, NewerFirst, OnePerSeq, LastOp, Numbered;
    LayeredGet(Sets(Layers(tables, mem)), answers, k, s);
    ReadsOnce(Entries(Numbered(ops, 1)), k, s, FirstAnswer(answers), LastOp(ops, k, n));
  }

  /** get_internal: the memtable's answer, or else what the tables give. */
  method GetInternal(fromMem: Answer, rs: seq<Option<Entry>>, k: bytes) returns (r: Option<bytes>)
    ensures r == FirstAnswer([fromMem] + AllTold(rs, k))
       <==> fromMem != Missing || FirstAnswer(AllTold(rs, k)) == None || !MeetsStray(rs, k)
  {
    assert ([fromMem] + AllTold(rs, k))[1..] == AllTold(rs, k);
    match fromMem {
      case Found(v) => r := Some(v);
      case Deleted => r := None;
      case Missing => r := GetFromTables(rs, k);
    }
  }

  /** `ms` are the encoded keys of the memtable, in order. */
  ghost predicate MemtableHolds(cmp: Cmp, mem: seq<Entry>, ms: seq<bytes>, sorted: seq<Entry>) {
    TotalOrder(cmp) && Sorted(cmp, sorted) && Lookups.Encodes(ms, sorted) && Entries(sorted) == Entries(mem)
  }

  ghost predicate Knows(mem: seq<Entry>, k: bytes, s: nat) {
    exists e :: e in mem && e.ukey == k && e.sn <= s
  }

  lemma KnowsIfAnswers(mem: seq<Entry>, k: bytes, s: nat, r: Answer)
    requires Answers(Entries(mem), k, s, r)
    ensures r != Missing <==> Knows(mem, k, s)
  {
  }

  /**
    A read of `k` at snapshot `s`, in a database that holds the operations of a session, gives what
    the last operation on `k` numbered up to `s` says, exactly if the memtable knows the key, or the
    answer is nothing, or no table asked before returns the deletion of another key.
   */
  method GetAfterSession(cmp: Cmp, db: Db, ghost ops: seq<BatchOp>, ms: seq<bytes>, ghost sortedMem: seq<Entry>,
                         ghost sorted: seq<seq<Entry>>, rs: seq<Option<Entry>>, k: bytes, s: Seq)
    returns (r: Option<bytes>)
    requires Stored(db.Abs()) == Numbered(ops, 1)
    requires MemtableHolds(cmp, db.mem, ms, sortedMem) && TablesReturn(cmp, db.tables, sorted, rs, k, s)
    ensures r == LastOp(ops, k, SeenOps(ops, s))
       <==> Knows(db.mem, k, s) || LastOp(ops, k, SeenOps(ops, s)) == None || !MeetsStray(rs, k)
  {
    hide Answers, TablesReturn, AllOf, LastOp, Numbered, Told, MeetsStray, Lookups.Encodes, Sorted, Knows, Entries;
    var fromMem := MemTableGet(cmp, ms, sortedMem, k, s);
    KnowsIfAnswers(db.mem, k, s, fromMem);
    LayersAnswer(cmp, db.tables, db.mem, ops, fromMem, sorted, rs, k, s);
    r := GetInternal(fromMem, rs, k);
  }

  /** The tables, sorted and from the newest to the oldest, return `rs`. */
  ghost predicate TablesReturn(cmp: Cmp, tables: seq<seq<Entry>>, sorted: seq<seq<Entry>>, rs: seq<Option<Entry>>,
                               k: bytes, s: nat) {
    && TotalOrder(cmp) && |rs| == |sorted| == |tables|
    && forall i :: 0 <= i < |rs| ==>
         && Sorted(cmp, sorted[i]) && Entries(sorted[i]) == Entries(tables[|rs| - 1 - i])
         && TableReturns(cmp, sorted[i], k, s, rs[i])
  }

  lemma LayersAnswer(cmp: Cmp, tables: seq<seq<Entry>>, mem: seq<Entry>, ops: seq<BatchOp>, fromMem: Answer,
                                        sorted: seq<seq<Entry>>, rs: seq<Option<Entry>>, k: bytes, s: nat)
    requires AllOf(tables) + mem == Numbered(ops, 1)
    requires Answers(Entries(mem), k, s, fromMem) && TablesReturn(cmp, tables, sorted, rs, k, s)
    ensures FirstAnswer([fromMem] + AllTold(rs, k)) == LastOp(ops, k, SeenOps(ops, s))
    ensures fromMem == Missing ==> FirstAnswer(AllTold(rs, k)) == LastOp(ops, k, SeenOps(ops, s))
  {
    hide Answers, TableReturns, AllOf, LastOp, Numbered, Told, TotalOrder, Sorted;
    var answers := [fromMem] + AllTold(rs, k);
    forall i | 0 <= i <= |tables| ensures Answers(Sets(Layers(tables, mem))[i], k, s, answers[i]) {
      if i > 0 {
        TableAnswers(cmp, sorted[i - 1], k, s, rs[i - 1]);
      }
    }
    FirstLayerReadsLastOp(tables, mem, ops, answers, k, s);
    assert answers[1..] == AllTold(rs, k);
  }
}
