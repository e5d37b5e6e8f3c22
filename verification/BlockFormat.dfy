/**
  The sorted block format: prefix-compressed entries, the offsets of the entries stored in full
  (restarts), and the number of restarts.
 */
module BlockFormat {
  import opened Order
  import opened Codec

  type Pair = (bytes, bytes)

  /**
    A block's contents: its entries, how much of each key is shared with the one before, and which entries are
    restarts.
   */
  datatype Layout = Layout(es: seq<Pair>, shared: seq<nat>, rs: seq<nat>)

  ghost predicate Sized(l: Layout) {
    |l.es| == |l.shared| && forall i :: 0 <= i < |l.es| ==> l.shared[i] <= |l.es[i].0|
  }

  /** Entry `i` can be rebuilt from the key before it. */
  ghost predicate Linked(l: Layout, i: nat)
    requires Sized(l) && i < |l.es|
  {
    && l.es[i].0 != []
    && if i == 0 then l.shared[i] == 0
       else l.shared[i] <= |l.es[i - 1].0| && l.es[i].0[..l.shared[i]] == l.es[i - 1].0[..l.shared[i]]
  }

  ghost predicate WellFormed(l: Layout) {
    && Sized(l) && l.rs != [] && l.rs[0] == 0
    && (forall i :: 0 <= i < |l.es| ==> Linked(l, i))
    && (forall j :: 0 < j < |l.rs| ==> l.rs[j - 1] < l.rs[j] < |l.es|)
    && (forall j :: 0 <= j < |l.rs| && l.rs[j] < |l.es| ==> l.shared[l.rs[j]] == 0)
  }

  /** Header of an entry: shared and unshared key length, value length. */
  function Header(l: Layout, i: nat): bytes
    requires i < |l.es| == |l.shared| && l.shared[i] <= |l.es[i].0|
  {
    EncodeVar(l.shared[i]) + EncodeVar(|l.es[i].0| - l.shared[i]) + EncodeVar(|l.es[i].1|)
  }

  function EntryBytes(l: Layout, i: nat): bytes
    requires i < |l.es| == |l.shared| && l.shared[i] <= |l.es[i].0|
  {
    Header(l, i) + l.es[i].0[l.shared[i]..] + l.es[i].1
  }

  /** The first `n` entries. */
  ghost function Body(l: Layout, n: nat): bytes
    requires Sized(l) && n <= |l.es|
  {
    if n == 0 then [] else Body(l, n - 1) + EntryBytes(l, n - 1)
  }

  ghost function Off(l: Layout, i: nat): nat
    requires Sized(l) && i <= |l.es|
  {
    |Body(l, i)|
  }

  /** Offsets of the restart entries. */
  ghost function RestartOffsets(l: Layout): (r: seq<nat>)
    requires WellFormed(l)
    ensures |r| == |l.rs| && forall j :: 0 <= j < |r| ==> RestartInRange(l, j) && r[j] == Off(l, l.rs[j])
  {
    assert forall j :: 0 <= j < |l.rs| ==> RestartInRange(l, j);
    seq(|l.rs|, j requires 0 <= j < |l.rs| => assert RestartInRange(l, j); Off(l, l.rs[j]))
  }

  ghost predicate RestartInRange(l: Layout, j: nat) {
    j < |l.rs| && l.rs[j] <= |l.es|
  }

  ghost function Contents(l: Layout): bytes
    requires WellFormed(l)
  {
    Body(l, |l.es|) + EncodeAll(RestartOffsets(l)) + EncodeFixed(|l.rs|, 4)
  }

  // ----- offsets

  /** Every entry takes at least three bytes of header. */
  lemma OffStep(l: Layout, i: nat)
    requires Sized(l) && i < |l.es|
    ensures Off(l, i + 1) == Off(l, i) + |Header(l, i)| + |l.es[i].0| - l.shared[i] + |l.es[i].1|
    ensures |Header(l, i)| >= 3
  {
  }

  lemma {:induction false} OffMonotone(l: Layout, i: nat, j: nat)
    requires Sized(l) && i <= j <= |l.es|
    ensures Off(l, i) <= Off(l, j) && (i < j ==> Off(l, i) < Off(l, j))
  {
    if i < j {
      OffMonotone(l, i, j - 1);
      OffStep(l, j - 1);
    }
  }

  lemma OffInjective(l: Layout, i: nat, j: nat)
    requires Sized(l) && i <= |l.es| && j <= |l.es|
    ensures Off(l, i) < Off(l, j) <==> i < j
  {
    if i < j { OffMonotone(l, i, j); } else { OffMonotone(l, j, i); }
  }

  lemma NextRestart(l: Layout, j: nat)
    requires WellFormed(l)
    ensures j + 1 < |l.rs| ==> l.rs[j] < l.rs[j + 1]
  {
  }

  // ----- reading back

  lemma {:induction false} BodySplits(l: Layout, i: nat, n: nat) returns (rest: bytes)
    requires Sized(l) && i < n <= |l.es|
    ensures Body(l, n) == Body(l, i) + EntryBytes(l, i) + rest
  {
    if i == n - 1 {
      rest := [];
    } else {
      var r := BodySplits(l, i, n - 1);
      rest := r + EntryBytes(l, n - 1);
    }
  }

  /** Cutting a string where its parts meet. */
  lemma Cut(b: bytes, p: bytes, x: bytes, y: bytes, z: bytes, k: bytes, v: bytes, rest: bytes)
    requires b == p + (x + y + z + k + v) + rest
    ensures |p| + |x| + |y| + |z| + |k| + |v| <= |b|
    ensures b[|p|..] == x + (y + z + k + v + rest)
    ensures b[|p| + |x|..] == y + (z + k + v + rest)
    ensures b[|p| + |x| + |y|..] == z + (k + v + rest)
    ensures b[|p| + |x| + |y| + |z|..|p| + |x| + |y| + |z| + |k|] == k
    ensures b[|p| + |x| + |y| + |z| + |k|..|p| + |x| + |y| + |z| + |k| + |v|] == v
  {
  }

  lemma ContentsSplit(l: Layout, i: nat) returns (rest: bytes)
    requires WellFormed(l) && i < |l.es|
    ensures Contents(l) == Body(l, i) + EntryBytes(l, i) + rest
  {
    var r := BodySplits(l, i, |l.es|);
    rest := r + (EncodeAll(RestartOffsets(l)) + EncodeFixed(|l.rs|, 4));
  }

  /** The varint at `o` reads as `n` and takes `used` bytes. */
  ghost predicate VarReads(b: bytes, o: nat, n: nat, used: nat) {
    o <= |b| && DecodeVar(b[o..]) == (n, used)
  }

  /**
    An entry is stored at `o`: a header that reads back as three lengths, taking `x`, `y` and `z`
    bytes, then the unshared rest of the key and the value, which end at `next`.
   */
  ghost predicate StoredAt(b: bytes, o: nat, x: nat, y: nat, z: nat, next: nat, shared: nat, k: bytes, v: bytes) {
    && next == o + x + y + z + |k| + |v| <= |b|
    && VarReads(b, o, shared, x) && VarReads(b, o + x, |k|, y) && VarReads(b, o + x + y, |v|, z)
    && b[o + x + y + z..o + x + y + z + |k|] == k
    && b[o + x + y + z + |k|..next] == v
  }

  lemma Stores(b: bytes, p: bytes, x: bytes, y: bytes, z: bytes, shared: nat, k: bytes, v: bytes, rest: bytes)
    requires b == p + (x + y + z + k + v) + rest
    requires VarReads(x + (y + z + k + v + rest), 0, shared, |x|)
    requires VarReads(y + (z + k + v + rest), 0, |k|, |y|)
    requires VarReads(z + (k + v + rest), 0, |v|, |z|)
    ensures StoredAt(b, |p|, |x|, |y|, |z|, |p| + |x| + |y| + |z| + |k| + |v|, shared, k, v)
  {
    Cut(b, p, x, y, z, k, v, rest);
    hide VarReads;
    ReadsInside(b, |p|, x + (y + z + k + v + rest), shared, |x|);
    ReadsInside(b, |p| + |x|, y + (z + k + v + rest), |k|, |y|);
    ReadsInside(b, |p| + |x| + |y|, z + (k + v + rest), |v|, |z|);
  }

  lemma ReadsInside(b: bytes, o: nat, tail: bytes, n: nat, used: nat)
    requires o <= |b| && b[o..] == tail && VarReads(tail, 0, n, used)
    ensures VarReads(b, o, n, used)
  {
    assert tail[0..] == tail;
  }

  lemma VarRead(n: nat, rest: bytes)
    ensures VarReads(EncodeVar(n) + rest, 0, n, |EncodeVar(n)|)
  {
    VarRoundTrip(n, rest);
    assert (EncodeVar(n) + rest)[0..] == EncodeVar(n) + rest;
  }

  lemma ReadEntry(l: Layout, i: nat) returns (x: nat, y: nat, z: nat)
    requires WellFormed(l) && i < |l.es|
    ensures StoredAt(Contents(l), Off(l, i), x, y, z, Off(l, i + 1), l.shared[i], l.es[i].0[l.shared[i]..], l.es[i].1)
    ensures x > 0
  {
    var k, v := l.es[i].0[l.shared[i]..], l.es[i].1;
    var a, b, c := EncodeVar(l.shared[i]), EncodeVar(|k|), EncodeVar(|v|);
    var rest := ContentsSplit(l, i);
    VarRead(l.shared[i], b + c + k + v + rest);
    VarRead(|k|, c + k + v + rest);
    VarRead(|v|, k + v + rest);
    OffStep(l, i);
    Stores(Contents(l), Body(l, i), a, b, c, l.shared[i], k, v, rest);
    x, y, z := |a|, |b|, |c|;
  }

  /** The value stands right before the next entry. */
  lemma ReadValue(l: Layout, i: nat)
    requires WellFormed(l) && i < |l.es|
    ensures var next, v := Off(l, i + 1), l.es[i].1; |v| <= next <= |Contents(l)| && Contents(l)[next - |v|..next] == v
  {
    var x, y, z := ReadEntry(l, i);
    hide Contents, Off, WellFormed, VarReads;
  }

  /** The trailer: restart offsets and their number. */
  lemma ReadRestart(l: Layout, j: nat)
    requires WellFormed(l) && j < |l.rs| && |Contents(l)| < U32_LIMIT
    ensures var b, at := Contents(l), Off(l, |l.es|) + 4 * j;
      at + 4 <= |b| && RestartInRange(l, j) && DecodeFixed(b[at..at + 4]) == Off(l, l.rs[j])
  {
    var b, at, offs := Contents(l), Off(l, |l.es|) + 4 * j, RestartOffsets(l);
    assert RestartInRange(l, j);
    assert at + 4 <= |b| && b[at..at + 4] == EncodeFixed(offs[j], 4) by {
      EncodeAllAt(offs, j);
      CutMiddle(Body(l, |l.es|), EncodeAll(offs), EncodeFixed(|l.rs|, 4), 4 * j, 4 * j + 4);
    }
    RestartBound(l, j);
    Fixed32RoundTrip(offs[j]);
  }

  lemma RestartBound(l: Layout, j: nat)
    requires WellFormed(l) && RestartInRange(l, j)
    ensures Off(l, l.rs[j]) <= Off(l, |l.es|) < |Contents(l)|
  {
    OffMonotone(l, l.rs[j], |l.es|);
  }

  lemma ReadRestartCount(l: Layout)
    requires WellFormed(l) && |Contents(l)| < U32_LIMIT
    ensures var b := Contents(l);
      |b| == Off(l, |l.es|) + 4 * |l.rs| + 4 && DecodeFixed(b[|b| - 4..]) == |l.rs|
  {
    var b := Contents(l);
    assert b[|b| - 4..] == EncodeFixed(|l.rs|, 4);
    Fixed32RoundTrip(|l.rs|);
  }
}
