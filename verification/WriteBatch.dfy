/** Write batches: the operations of one atomic write, in the form in which they are logged. */
module WriteBatches {
  import opened Order
  import opened Codec
  import opened Versions
  import opened Keys

  const COUNT_OFFSET: nat := 8
  const HEADER_SIZE: nat := 12

  datatype BatchOp = Put(key: bytes, val: bytes) | Delete(key: bytes)

  function OpBytes(op: BatchOp): (r: bytes)
    ensures r != []
  {
    match op
    case Put(k, v) => [TypeCode(Value)] + (EncodeVar(|k|) + (k + (EncodeVar(|v|) + v)))
    case Delete(k) => [TypeCode(Deletion)] + (EncodeVar(|k|) + k)
  }

  function OpsBytes(ops: seq<BatchOp>): bytes {
    if ops == [] then [] else OpBytes(ops[0]) + OpsBytes(ops[1..])
  }

  /** A batch as it is logged: sequence number of its first operation, number of operations, operations. */
  function BatchBytes(s: nat, ops: seq<BatchOp>): (r: bytes)
    ensures |r| >= HEADER_SIZE
  {
    EncodeFixed(s, 8) + EncodeFixed(|ops|, 4) + OpsBytes(ops)
  }

  /** What an operation does under a sequence number. */
  function EntryOf(op: BatchOp, s: nat): Entry {
    match op
    case Put(k, v) => Entry(k, s, Value, v)
    case Delete(k) => Entry(k, s, Deletion, [])
  }

  /** A batch numbers its operations upwards. */
  function Numbered(ops: seq<BatchOp>, s: nat): (r: seq<Entry>)
    ensures |r| == |ops|
  {
    seq(|ops|, i requires 0 <= i < |ops| => EntryOf(ops[i], s + i))
  }

  /** The bytes hold these operations behind some sequence number. */
  ghost predicate Carries(b: bytes, ops: seq<BatchOp>) {
    |b| >= HEADER_SIZE && b[COUNT_OFFSET..HEADER_SIZE] == EncodeFixed(|ops|, 4) && b[HEADER_SIZE..] == OpsBytes(ops)
  }

  lemma {:induction false} OpsBytesAppend(ops: seq<BatchOp>, op: BatchOp)
    ensures OpsBytes(ops + [op]) == OpsBytes(ops) + OpBytes(op)
  {
    hide OpBytes;
    if ops == [] {
      assert [op][1..] == [];
    } else {
      OpsBytesAppend(ops[1..], op);
      assert (ops + [op])[1..] == ops[1..] + [op];
    }
  }

  lemma SequenceRoundTrip(s: Seq)
    ensures DecodeFixed(EncodeFixed(s, 8)) == s
  {
    assert Pow256(8) == 256 * Pow256(7) && Pow256(7) == 256 * Pow256(6) && Pow256(6) == 256 * Pow256(5);
    assert Pow256(5) == 256 * Pow256(4) && Pow256(4) == 256 * Pow256(3) && Pow256(3) == 256 * Pow256(2)
           && Pow256(2) == 256 * Pow256(1);
    FixedRoundTrip(s, 8);
  }

  lemma BatchCarries(s: Seq, ops: seq<BatchOp>)
    ensures Carries(BatchBytes(s, ops), ops)
    ensures DecodeFixed(BatchBytes(s, ops)[..8]) == s
  {
    SequenceRoundTrip(s);
    hide EncodeFixed, DecodeFixed, OpsBytes;
    assert BatchBytes(s, ops)[..8] == EncodeFixed(s, 8);
  }

  /** A length-prefixed string at `o`: where it starts, and where it ends. */
  ghost predicate StringAt(b: bytes, o: nat, start: nat, s: bytes) {
    && o <= start && start + |s| <= |b|
    && DecodeVar(b[o..]) == (|s|, start - o)
    && b[start..start + |s|] == s
  }

  lemma StringReads(b: bytes, o: nat, s: bytes, rest: bytes)
    requires o <= |b| && b[o..] == EncodeVar(|s|) + (s + rest)
    ensures StringAt(b, o, o + |EncodeVar(|s|)|, s)
    ensures b[o + |EncodeVar(|s|)| + |s|..] == rest
  {
    VarRoundTrip(|s|, s + rest);
    hide EncodeVar, DecodeVar;
    var x := EncodeVar(|s|);
    var tail := b[o..];
    assert tail[|x|..|x| + |s|] == s && tail[|x| + |s|..] == rest;
    assert b[o + |x|..o + |x| + |s|] == tail[|x|..|x| + |s|];
    assert b[o + |x| + |s|..] == tail[|x| + |s|..];
  }

  lemma AfterFirst(b: bytes, o: nat, t: byte, more: bytes)
    requires o <= |b| && b[o..] == [t] + more
    ensures o < |b| && b[o] == t && b[o + 1..] == more
  {
    assert b[o] == b[o..][0] && b[o + 1..] == b[o..][1..];
  }

  lemma PutBytes(key: bytes, val: bytes, rest: bytes)
    ensures OpBytes(Put(key, val)) + rest
            == [TypeCode(Value)] + (EncodeVar(|key|) + (key + (EncodeVar(|val|) + (val + rest))))
  {
    hide EncodeVar;
    var x, y := EncodeVar(|key|), EncodeVar(|val|);
    Regroup(y, val, rest);
    Regroup(key, y + val, rest);
    Regroup(x, key + (y + val), rest);
    Regroup([TypeCode(Value)], x + (key + (y + val)), rest);
  }

  /** How an operation reads back, wherever it stands. */
  lemma PutReads(b: bytes, o: nat, key: bytes, val: bytes, rest: bytes) returns (k: nat, v: nat)
    requires o <= |b| && b[o..] == OpBytes(Put(key, val)) + rest
    ensures o < |b| && b[o] == TypeCode(Value)
    ensures StringAt(b, o + 1, k, key) && StringAt(b, k + |key|, v, val) && b[v + |val|..] == rest
  {
    PutBytes(key, val, rest);
    hide EncodeVar, DecodeVar, OpBytes;
    var x, y := EncodeVar(|key|), EncodeVar(|val|);
    AfterFirst(b, o, TypeCode(Value), x + (key + (y + (val + rest))));
    StringReads(b, o + 1, key, y + (val + rest));
    k := o + 1 + |x|;
    StringReads(b, k + |key|, val, rest);
    v := k + |key| + |y|;
  }

  lemma DeleteReads(b: bytes, o: nat, key: bytes, rest: bytes) returns (k: nat)
    requires o <= |b| && b[o..] == OpBytes(Delete(key)) + rest
    ensures o < |b| && b[o] == TypeCode(Deletion)
    ensures StringAt(b, o + 1, k, key) && b[k + |key|..] == rest
  {
    hide EncodeVar, DecodeVar;
    var x := EncodeVar(|key|);
    assert [TypeCode(Deletion)] + (x + key) + rest == [TypeCode(Deletion)] + (x + (key + rest));
    AfterFirst(b, o, TypeCode(Deletion), x + (key + rest));
    hide OpBytes;
    StringReads(b, o + 1, key, rest);
    k := o + 1 + |x|;
  }

  /** Decodes a length-prefixed string and moves behind it. */
  method ReadString(b: bytes, ix: nat, ghost start: nat, ghost s: bytes) returns (r: bytes, next: nat)
    requires ix <= |b| && StringAt(b, ix, start, s)
    ensures r == s && next == start + |s|
  {
    hide DecodeVar;
    var (len, used) := DecodeVar(b[ix..]);
    next := ix + used + len;
    r := b[ix + used..next];
  }

  /** The iterator's step: decodes the operation at an index and moves behind it. */
  method Next(b: bytes, ix: nat, ghost op: BatchOp, ghost rest: bytes) returns (r: BatchOp, next: nat)
    requires ix <= |b| && b[ix..] == OpBytes(op) + rest
    ensures r == op && ix < next <= |b| && b[next..] == rest
  {
    hide OpBytes, DecodeVar, EncodeVar;
    ghost var k, v := 0, 0;
    if op.Put? {
      k, v := PutReads(b, ix, op.key, op.val, rest);
    } else {
      k := DeleteReads(b, ix, op.key, rest);
    }
    var tag := b[ix];
    var key;
    key, next := ReadString(b, ix + 1, k, op.key);
    if tag == TypeCode(Value) {
      var val;
      val, next := ReadString(b, next, v, op.val);
      r := BatchOp.Put(key, val);
    } else {
      r := BatchOp.Delete(key);
    }
  }

  /** Decoding has come to `ix` in the bytes, with `i` operations added. */
  ghost predicate DecodedTo(b: bytes, s: nat, ops: seq<BatchOp>, ix: nat, i: nat, added: seq<Entry>) {
    ix <= |b| && i <= |ops| && b[ix..] == OpsBytes(ops[i..]) && added == Numbered(ops[..i], s)
  }

  lemma DecodeStarts(b: bytes, s: nat, ops: seq<BatchOp>)
    requires Carries(b, ops)
    ensures DecodedTo(b, s, ops, HEADER_SIZE, 0, [])
  {
    hide OpBytes;
    assert ops[0..] == ops;
  }

  lemma OpIsNext(b: bytes, s: nat, ops: seq<BatchOp>, ix: nat, i: nat, added: seq<Entry>)
    requires DecodedTo(b, s, ops, ix, i, added) && ix < |b|
    ensures i < |ops| && b[ix..] == OpBytes(ops[i]) + OpsBytes(ops[i + 1..])
  {
    hide OpBytes;
    SomeLeft(ops, i);
  }

  lemma DecodeStep(b: bytes, s: nat, ops: seq<BatchOp>, ix: nat, i: nat, added: seq<Entry>, next: nat)
    requires DecodedTo(b, s, ops, ix, i, added) && i < |ops| && next <= |b| && b[next..] == OpsBytes(ops[i + 1..])
    ensures DecodedTo(b, s, ops, next, i + 1, added + [EntryOf(ops[i], s + i)])
  {
    hide OpBytes, OpsBytes;
    NumberedOneMore(ops, i, s);
  }

  lemma DecodeEnds(b: bytes, s: nat, ops: seq<BatchOp>, i: nat, added: seq<Entry>)
    requires DecodedTo(b, s, ops, |b|, i, added)
    ensures added == Numbered(ops, s)
  {
    NoneLeft(ops, i);
    assert ops[..|ops|] == ops;
  }

  /** Decodes the operations one by one and gives each the next sequence number. */
  method Decode(b: bytes, s: nat, ghost ops: seq<BatchOp>) returns (added: seq<Entry>)
    requires Carries(b, ops)
    ensures added == Numbered(ops, s)
  {
    hide DecodedTo, OpBytes, OpsBytes, Numbered, Carries;
    added := [];
    var ix, sn := HEADER_SIZE, s;
    ghost var i := 0;
    DecodeStarts(b, s, ops);
    HeaderInside(b, ops);
    while ix < |b|
      invariant ix <= |b| && sn == s + i && DecodedTo(b, s, ops, ix, i, added)
      decreases |b| - ix
    {
      OpIsNext(b, s, ops, ix, i, added);
      var op, next := Next(b, ix, ops[i], OpsBytes(ops[i + 1..]));
      DecodeStep(b, s, ops, ix, i, added, next);
      match op {
        case Put(k, v) => added := added + [Entry(k, sn, Value, v)];
        case Delete(k) => added := added + [Entry(k, sn, Deletion, [])];
      }
      sn := sn + 1;
      ix := next;
      i := i + 1;
    }
    DecodeEnds(b, s, ops, i, added);
  }

  lemma HeaderInside(b: bytes, ops: seq<BatchOp>)
    requires Carries(b, ops)
    ensures |b| >= HEADER_SIZE
  {
  }

  class WriteBatch {
    var entries: bytes
    ghost var ops: seq<BatchOp>

    ghost predicate Valid()
      reads this
    {
      |ops| < U32_LIMIT && Carries(entries, ops)
    }

    constructor ()
      ensures Valid() && ops == []
    {
      entries := seq(HEADER_SIZE, _ => 0);
      ops := [];
      new;
      assert EncodeFixed(0, 4) == [0] + EncodeFixed(0, 3);
      assert EncodeFixed(0, 2) == [0] + EncodeFixed(0, 1);
      assert entries[COUNT_OFFSET..HEADER_SIZE] == [0, 0, 0, 0];
    }

    method SetContents(from: bytes, ghost carried: seq<BatchOp>)
      requires |carried| < U32_LIMIT && Carries(from, carried)
      modifies this
      ensures Valid() && ops == carried && entries == from
    {
      entries := from;
      ops := carried;
    }

    method Count() returns (c: nat)
      requires Valid()
      ensures c == |ops|
    {
      Fixed32RoundTrip(|ops|);
      c := DecodeFixed(entries[COUNT_OFFSET..HEADER_SIZE]);
    }

    method Sequence() returns (s: nat)
      requires Valid()
      ensures s == DecodeFixed(entries[..COUNT_OFFSET])
    {
      s := DecodeFixed(entries[..COUNT_OFFSET]);
    }

    /** Counts an operation whose bytes have been written behind the others. */
    method Counted(op: BatchOp)
      requires |ops| + 1 < U32_LIMIT && |entries| >= HEADER_SIZE
      requires entries[COUNT_OFFSET..HEADER_SIZE] == EncodeFixed(|ops|, 4)
      requires entries[HEADER_SIZE..] == OpsBytes(ops) + OpBytes(op)
      modifies this
      ensures Valid() && ops == old(ops) + [op]
    {
      hide OpsBytes, OpBytes, DecodeFixed, EncodeFixed, Carries;
      Fixed32RoundTrip(|ops|);
      var c := DecodeFixed(entries[COUNT_OFFSET..HEADER_SIZE]);
      var head, tail := entries[..COUNT_OFFSET], entries[HEADER_SIZE..];
      CarriesOneMore(head, tail, ops, op);
      entries := head + EncodeFixed(c + 1, 4) + tail;
      ops := ops + [op];
    }

    method Put(k: bytes, v: bytes)
      requires Valid() && |ops| + 1 < U32_LIMIT
      modifies this
      ensures Valid() && ops == old(ops) + [BatchOp.Put(k, v)]
    {
      hide EncodeVar, OpsBytes, EncodeFixed;
      ghost var was := entries;
      Regroup(was + [TypeCode(Value)] + EncodeVar(|k|) + k, EncodeVar(|v|), v);
      Regroup(was + [TypeCode(Value)] + EncodeVar(|k|), k, EncodeVar(|v|) + v);
      Regroup(was + [TypeCode(Value)], EncodeVar(|k|), k + (EncodeVar(|v|) + v));
      Regroup(was, [TypeCode(Value)], EncodeVar(|k|) + (k + (EncodeVar(|v|) + v)));
      AppendedBehind(was, OpBytes(BatchOp.Put(k, v)));
      entries := entries + [TypeCode(Value)];
      entries := entries + EncodeVar(|k|);
      entries := entries + k;
      entries := entries + EncodeVar(|v|);
      entries := entries + v;
      Counted(BatchOp.Put(k, v));
    }

    method Delete(k: bytes)
      requires Valid() && |ops| + 1 < U32_LIMIT
      modifies this
      ensures Valid() && ops == old(ops) + [BatchOp.Delete(k)]
    {
      hide EncodeVar, OpsBytes, EncodeFixed;
      ghost var was := entries;
      entries := entries + [TypeCode(Deletion)];
      entries := entries + EncodeVar(|k|);
      entries := entries + k;
      assert entries == was + OpBytes(BatchOp.Delete(k));
      AppendedBehind(was, OpBytes(BatchOp.Delete(k)));
      Counted(BatchOp.Delete(k));
    }

    /** Decodes the operations one by one and adds each under the next sequence number. */
    method InsertIntoMemtable(s: nat) returns (added: seq<Entry>)
      requires Valid()
      ensures added == Numbered(ops, s)
    {
      added := Decode(entries, s, ops);
    }

    /** Gives up the batch as the bytes to log. */
    method Encode(s: Seq) returns (r: bytes)
      requires Valid()
      modifies this
      ensures r == BatchBytes(s, old(ops))
    {
      hide OpsBytes, EncodeFixed;
      entries := EncodeFixed(s, 8) + entries[COUNT_OFFSET..];
      r := entries;
      assert r == EncodeFixed(s, 8) + (old(entries)[COUNT_OFFSET..HEADER_SIZE] + old(entries)[HEADER_SIZE..]);
    }
  }

  lemma SomeLeft(ops: seq<BatchOp>, i: nat)
    requires i <= |ops| && OpsBytes(ops[i..]) != []
    ensures i < |ops| && OpsBytes(ops[i..]) == OpBytes(ops[i]) + OpsBytes(ops[i + 1..])
  {
    hide OpBytes;
    assert i < |ops|;
    assert ops[i..][1..] == ops[i + 1..];
  }

  lemma NoneLeft(ops: seq<BatchOp>, i: nat)
    requires i <= |ops| && OpsBytes(ops[i..]) == []
    ensures i == |ops|
  {
    hide OpBytes;
  }

  lemma AppendedBehind(was: bytes, more: bytes)
    requires |was| >= HEADER_SIZE
    ensures (was + more)[COUNT_OFFSET..HEADER_SIZE] == was[COUNT_OFFSET..HEADER_SIZE]
    ensures (was + more)[HEADER_SIZE..] == was[HEADER_SIZE..] + more
  {
  }

  lemma CarriesOneMore(head: bytes, tail: bytes, ops: seq<BatchOp>, op: BatchOp)
    requires |head| == COUNT_OFFSET && tail == OpsBytes(ops) + OpBytes(op)
    ensures Carries(head + EncodeFixed(|ops| + 1, 4) + tail, ops + [op])
  {
    OpsBytesAppend(ops, op);
    hide OpsBytes, OpBytes, EncodeFixed;
    Replaced(head, EncodeFixed(|ops| + 1, 4), tail);
  }

  lemma Replaced(head: bytes, count: bytes, tail: bytes)
    requires |head| == COUNT_OFFSET && |count| == 4
    ensures var b := head + count + tail; b[COUNT_OFFSET..HEADER_SIZE] == count && b[HEADER_SIZE..] == tail
  {
  }

  lemma NumberedOneMore(ops: seq<BatchOp>, i: nat, s: nat)
    requires i < |ops|
    ensures Numbered(ops[..i + 1], s) == Numbered(ops[..i], s) + [EntryOf(ops[i], s + i)]
  {
  }

  /** A batch that is logged and read back adds what it would have added at once. */
  method LogAndReplay(batch: WriteBatch, s: Seq) returns (direct: seq<Entry>, replayed: seq<Entry>)
    requires batch.Valid()
    modifies batch
    ensures direct == replayed == Numbered(old(batch.ops), s)
  {
    direct := batch.InsertIntoMemtable(s);
    ghost var ops := batch.ops;
    var record := batch.Encode(s);
    BatchCarries(s, ops);
    hide BatchBytes;
    var again := new WriteBatch();
    again.SetContents(record, ops);
    var first := again.Sequence();
    replayed := again.InsertIntoMemtable(first);
  }
}
