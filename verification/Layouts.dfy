/** The encodings byte by byte: which byte of a number, key or batch stands where. */
module Layouts {
  import opened Order
  import opened Codec
  import opened Versions
  import opened Keys
  import opened WriteBatches

  ghost function Pow128(n: nat): (r: nat)
    ensures r > 0
  {
    if n == 0 then 1 else 128 * Pow128(n - 1)
  }

  lemma {:induction false} Pow256Positive(n: nat)
    ensures Pow256(n) > 0
  {
    if n > 0 {
      Pow256Positive(n - 1);
    }
  }

  // ----- dividing twice is dividing by the product

  ghost function Times(a: nat, b: nat): nat {
    a * b
  }

  ghost function Quotient(n: nat, d: nat): nat {
    if d == 0 then 0 else n / d
  }

  lemma TimesStep(a: nat, b: nat)
    ensures Times(a, 0) == 0 && Times(a, b + 1) == Times(a, b) + a
  {
  }

  lemma {:induction false} TimesSum(a: nat, b: nat, c: nat)
    ensures Times(a, b + c) == Times(a, b) + Times(a, c)
    decreases c
  {
    hide Times;
    TimesStep(a, b);
    if c > 0 {
      TimesSum(a, b, c - 1);
      TimesStep(a, b + c - 1);
      TimesStep(a, c - 1);
    }
  }

  lemma {:induction false} TimesTimes(a: nat, b: nat, c: nat)
    ensures Times(Times(a, b), c) == Times(a, Times(b, c))
    decreases c
  {
    hide Times;
    TimesStep(Times(a, b), 0);
    TimesStep(b, 0);
    TimesStep(a, 0);
    if c > 0 {
      TimesTimes(a, b, c - 1);
      TimesStep(Times(a, b), c - 1);
      TimesStep(b, c - 1);
      TimesSum(a, Times(b, c - 1), b);
    }
  }

  lemma TimesUp(a: nat, b: nat, c: nat)
    ensures b <= c ==> Times(a, b) <= Times(a, c)
    ensures b < c ==> Times(a, b) + a <= Times(a, c)
  {
    hide Times;
    if b < c {
      TimesStep(a, b);
      TimesSum(a, b + 1, c - b - 1);
    }
  }

  lemma QuotientBounds(n: nat, d: nat)
    requires d > 0
    ensures var q := Quotient(n, d); Times(d, q) <= n < Times(d, q) + d
  {
  }

  lemma QuotientIs(n: nat, d: nat, q: nat)
    requires d > 0 && Times(d, q) <= n < Times(d, q) + d
    ensures Quotient(n, d) == q
  {
    hide Times, Quotient;
    QuotientBounds(n, d);
    TimesUp(d, Quotient(n, d), q);
    TimesUp(d, q, Quotient(n, d));
  }

  lemma DivideTwice(n: nat, a: nat, b: nat)
    requires a > 0 && b > 0
    ensures Quotient(Quotient(n, a), b) == Quotient(n, Times(a, b))
  {
    hide Times, Quotient;
    var m := Quotient(n, a);
    var q := Quotient(m, b);
    QuotientBounds(n, a);
    QuotientBounds(m, b);
    TimesTimes(a, b, q);
    TimesUp(a, Times(b, q), m);
    TimesUp(a, m, Times(b, q) + b);
    TimesSum(a, Times(b, q), b);
    TimesUp(a, 0, b);
    TimesStep(a, 0);
    QuotientIs(n, Times(a, b), q);
  }

  // ----- integers

  /** The `i`-th digit of a number to the base 256, least significant first. */
  ghost function Digit256(n: nat, i: nat): nat {
    Quotient(n, Pow256(i)) % 256
  }

  ghost function Digit128(n: nat, i: nat): nat {
    Quotient(n, Pow128(i)) % 128
  }

  lemma NextDigit256(n: nat, i: nat)
    ensures Digit256(n, 0) == n % 256 && Digit256(n, i + 1) == Digit256(n / 256, i)
  {
    Pow256Positive(i);
    DivideTwice(n, 256, Pow256(i));
    assert Quotient(n, 256) == n / 256 && Quotient(n, 1) == n && Times(256, Pow256(i)) == Pow256(i + 1);
    hide Quotient, Times;
  }

  lemma NextDigit128(n: nat, i: nat)
    ensures Digit128(n, 0) == n % 128 && Digit128(n, i + 1) == Digit128(n / 128, i)
  {
    DivideTwice(n, 128, Pow128(i));
    assert Quotient(n, 128) == n / 128 && Quotient(n, 1) == n && Times(128, Pow128(i)) == Pow128(i + 1);
    hide Quotient, Times;
  }

  /** Fixed-width integers are little-endian: byte `i` is the `i`-th digit to the base 256. */
  lemma {:induction false} FixedByte(n: nat, width: nat, i: nat)
    requires i < width
    ensures EncodeFixed(n, width)[i] == Digit256(n, i)
    decreases i
  {
    NextDigit256(n, if i > 0 then i - 1 else 0);
    hide Digit256;
    if i > 0 {
      FixedByte(n / 256, width - 1, i - 1);
    }
  }

  /** The other half of the round trip: every string of bytes is the encoding of what it decodes to. */
  lemma {:induction false} FixedIsDecoded(s: bytes)
    ensures EncodeFixed(DecodeFixed(s), |s|) == s
  {
    if s != [] {
      FixedIsDecoded(s[1..]);
      assert DecodeFixed(s) % 256 == s[0] && DecodeFixed(s) / 256 == DecodeFixed(s[1..]);
    }
  }

  /** Varints have a byte for every seven bits up to the highest one set, and one for zero. */
  lemma {:induction false} VarLength(n: nat)
    ensures var len := |EncodeVar(n)|; n < Pow128(len) && (n == 0 || Pow128(len - 1) <= n) && (n == 0 ==> len == 1)
    decreases n
  {
    if n >= 128 {
      VarLength(n / 128);
    } else {
      assert Pow128(0) == 1;
    }
  }

  /** Byte `i` of a varint is the `i`-th digit to the base 128, with the top bit set in all but the last. */
  lemma {:induction false} VarByte(n: nat, i: nat)
    requires i < |EncodeVar(n)|
    ensures EncodeVar(n)[i] == Digit128(n, i) + if i + 1 < |EncodeVar(n)| then 128 else 0
    decreases i
  {
    NextDigit128(n, if i > 0 then i - 1 else 0);
    hide Digit128;
    if i > 0 {
      VarByte(n / 128, i - 1);
    }
  }

  /** Reading a varint takes the bytes up to the first without top bit, or all there are. */
  lemma {:induction false} VarReadsUpTo(s: bytes, k: nat)
    requires k <= |s| && (forall i :: 0 <= i < k ==> s[i] >= 128) && (k < |s| ==> s[k] < 128)
    ensures DecodeVar(s).1 == if k < |s| then k + 1 else k
    decreases s
  {
    if s != [] && k > 0 {
      VarReadsUpTo(s[1..], k - 1);
    }
  }

  /** An internal key is the user key, the type, 1 for a value and 0 for a deletion, and the sequence number. */
  lemma TagBytes(k: bytes, s: Seq, t: Kind, i: nat)
    requires i < 7
    ensures var r := InternalKey(k, s, t);
      r[..|k|] == k && r[|k|] == (if t == Value then 1 else 0) && r[|k| + 1 + i] == Digit256(s, i)
  {
    FixedByte(s, 7, i);
    hide Digit256;
    TagSplits(s, t);
    hide EncodeFixed, Tag;
  }

  lemma TagSplits(s: Seq, t: Kind)
    ensures EncodeFixed(Tag(s, t), 8) == [TypeCode(t)] + EncodeFixed(s, 7)
  {
    assert Tag(s, t) % 256 == TypeCode(t) && Tag(s, t) / 256 == s;
  }

  /** A logged batch starts with its sequence number, 8 bytes, and its number of operations, 4 bytes. */
  lemma BatchHeader(s: nat, ops: seq<BatchOp>, i: nat)
    requires i < 8
    ensures BatchBytes(s, ops)[i] == Digit256(s, i)
    ensures i < 4 ==> BatchBytes(s, ops)[8 + i] == Digit256(|ops|, i)
  {
    FixedByte(s, 8, i);
    if i < 4 {
      FixedByte(|ops|, 4, i);
    }
    hide EncodeFixed, OpsBytes, Digit256;
  }

  /** How long an operation is in a batch. */
  function OpLength(op: BatchOp): nat {
    match op
    case Put(k, v) => 1 + |EncodeVar(|k|)| + |k| + |EncodeVar(|v|)| + |v|
    case Delete(k) => 1 + |EncodeVar(|k|)| + |k|
  }

  function OpsLength(ops: seq<BatchOp>): nat {
    if ops == [] then 0 else OpLength(ops[0]) + OpsLength(ops[1..])
  }

  /** The bytes at `at` are an operation's, and start with 1 for a put and 0 for a deletion. */
  ghost predicate OperationAt(b: bytes, at: nat, op: BatchOp) {
    && at < at + OpLength(op) <= |b| && b[at..at + OpLength(op)] == OpBytes(op)
    && b[at] == if op.Put? then 1 else 0
  }

  lemma OperationFirst(op: BatchOp, rest: bytes)
    ensures OperationAt(OpBytes(op) + rest, 0, op) && |OpBytes(op)| == OpLength(op)
  {
    hide EncodeVar;
    assert (OpBytes(op) + rest)[..|OpBytes(op)|] == OpBytes(op);
  }

  lemma OperationBehind(x: bytes, rest: bytes, at: nat, op: BatchOp)
    requires OperationAt(rest, at, op)
    ensures OperationAt(x + rest, |x| + at, op)
  {
    hide OpBytes, OpLength;
    assert (x + rest)[|x| + at..|x| + at + OpLength(op)] == rest[at..at + OpLength(op)];
  }

  /** Each operation of a batch stands behind the header and the operations before it. */
  lemma {:induction false} OperationsAt(ops: seq<BatchOp>, i: nat)
    requires i < |ops|
    ensures OperationAt(OpsBytes(ops), OpsLength(ops[..i]), ops[i])
    decreases ops
  {
    hide OperationAt, OpBytes, OpLength;
    var rest := OpsBytes(ops[1..]);
    OperationFirst(ops[0], rest);
    if i > 0 {
      OperationsAt(ops[1..], i - 1);
      assert ops[..i][1..] == ops[1..][..i - 1];
      OperationBehind(OpBytes(ops[0]), rest, OpsLength(ops[1..][..i - 1]), ops[i]);
    }
  }

  lemma ShortTag(s: Seq, t: Kind)
    requires s < 256
    ensures EncodeFixed(Tag(s, t), 8) == [TypeCode(t), s, 0, 0, 0, 0, 0, 0]
  {
    hide EncodeFixed, Tag;
    TagSplits(s, t);
    OneByte(s, 7);
    ZeroBytes(6);
  }

  lemma OneByte(n: nat, width: nat)
    requires n < 256 && width > 0
    ensures EncodeFixed(n, width) == [n] + EncodeFixed(0, width - 1)
  {
  }

  lemma {:induction false} ZeroBytes(width: nat)
    ensures forall i :: 0 <= i < width ==> EncodeFixed(0, width)[i] == 0
  {
    if width > 0 {
      ZeroBytes(width - 1);
    }
  }

  /** Memtable keys of short keys and values and small sequence numbers, spelled out. */
  lemma ShortMemtableKey(e: Entry)
    requires |e.ukey| < 120 && |e.val| < 128 && e.sn < 256
    ensures MemtableKey(e)
            == [|e.ukey| + 8] + (e.ukey + [if e.kind == Value then 1 else 0, e.sn, 0, 0, 0, 0, 0, 0])
               + ([|e.val|] + e.val)
  {
    ShortTag(e.sn, e.kind);
    hide EncodeFixed;
  }

  /** One that the repository's own examples spell out. */
  lemma KeyExample()
    ensures MemtableKey(Entry([97, 98, 99], 231, Value, [49, 50, 51]))
            == [11, 97, 98, 99, 1, 231, 0, 0, 0, 0, 0, 0, 3, 49, 50, 51]
  {
    ShortMemtableKey(Entry([97, 98, 99], 231, Value, [49, 50, 51]));
    hide MemtableKey;
  }
}
