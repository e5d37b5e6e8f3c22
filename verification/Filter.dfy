/** Bloom filters: the policy that fills and probes them, and the wrapper that ignores the tags of internal keys. */
module Filter {
  import opened Order
  import opened Codec

  // ----- keys laid end to end

  predicate Offsets(data: bytes, offsets: seq<nat>) {
    && (forall i :: 0 <= i < |offsets| ==> offsets[i] <= |data|)
    && (forall i, j :: 0 <= i < j < |offsets| ==> offsets[i] <= offsets[j])
  }

  /** The keys that a buffer and the offsets of their first bytes stand for. */
  function Pieces(data: bytes, offsets: seq<nat>): (r: seq<bytes>)
    requires Offsets(data, offsets)
    ensures |r| == |offsets|
  {
    seq(|offsets|, i requires 0 <= i < |offsets| => Piece(data, offsets, i))
  }

  function Piece(data: bytes, offsets: seq<nat>, i: nat): bytes
    requires Offsets(data, offsets) && i < |offsets|
  {
    data[offsets[i]..if i == |offsets| - 1 then |data| else offsets[i + 1]]
  }

  lemma AppendPiece(data: bytes, offsets: seq<nat>, key: bytes)
    requires Offsets(data, offsets)
    ensures Offsets(data + key, offsets + [|data|])
    ensures Pieces(data + key, offsets + [|data|]) == Pieces(data, offsets) + [key]
  {
    var d, o := data + key, offsets + [|data|];
    forall i | 0 <= i < |o| ensures Pieces(d, o)[i] == (Pieces(data, offsets) + [key])[i] {
      if i < |offsets| {
        assert Piece(d, o, i) == Piece(data, offsets, i);
      }
    }
  }

  // ----- bits

  function Pow2(n: nat): (r: nat)
    ensures r > 0
  {
    if n == 0 then 1 else 2 * Pow2(n - 1)
  }

  /** Bit `i` of a number. */
  predicate ByteBit(b: nat, i: nat)
    decreases i
  {
    if i == 0 then b % 2 == 1 else ByteBit(b / 2, i - 1)
  }

  /** A number with bit `i` set. */
  function WithBit(b: nat, i: nat): nat
    decreases i
  {
    if i == 0 then b / 2 * 2 + 1 else WithBit(b / 2, i - 1) * 2 + b % 2
  }

  /** Setting a bit sets that bit and no other. */
  lemma {:induction false} WithBitSets(b: nat, i: nat, j: nat)
    ensures ByteBit(WithBit(b, i), j) <==> j == i || ByteBit(b, j)
    decreases i
  {
    var w := if i == 0 then b / 2 else WithBit(b / 2, i - 1);
    Halves(w, if i == 0 then 1 else b % 2);
    if i > 0 && j > 0 {
      WithBitSets(b / 2, i - 1, j - 1);
    }
  }

  lemma Halves(w: nat, r: nat)
    requires r < 2
    ensures (w * 2 + r) / 2 == w && (w * 2 + r) % 2 == r
  {
  }

  lemma {:induction false} WithBitFits(b: nat, i: nat, n: nat)
    requires b < Pow2(n) && i < n
    ensures WithBit(b, i) < Pow2(n)
    decreases n
  {
    if i > 0 {
      WithBitFits(b / 2, i - 1, n - 1);
    }
  }

  lemma WithBitIsByte(b: byte, i: nat)
    requires i < 8
    ensures WithBit(b, i) < 256
  {
    assert Pow2(8) == 2 * Pow2(7) && Pow2(6) == 2 * Pow2(5) && Pow2(4) == 2 * Pow2(3) && Pow2(2) == 2 * Pow2(1);
    assert Pow2(7) == 2 * Pow2(6) && Pow2(5) == 2 * Pow2(4) && Pow2(3) == 2 * Pow2(2);
    WithBitFits(b, i, 8);
  }

  /** The bits of `a` and, from `n` on, those of `b`. */
  lemma {:induction false} JoinedBits(a: nat, b: nat, n: nat, j: nat)
    requires a < Pow2(n)
    ensures ByteBit(a + b * Pow2(n), j) <==> if j < n then ByteBit(a, j) else ByteBit(b, j - n)
    decreases n
  {
    if n > 0 {
      var c := b * Pow2(n - 1);
      assert a + b * Pow2(n) == (a / 2 + c) * 2 + a % 2;
      Halves(a / 2 + c, a % 2);
      if j > 0 {
        JoinedBits(a / 2, b, n - 1, j - 1);
      }
    }
  }

  /** Numbers of `n` bits are equal if their bits are. */
  lemma {:induction false} SameBits(a: nat, b: nat, n: nat)
    requires a < Pow2(n) && b < Pow2(n) && forall j :: 0 <= j < n ==> (ByteBit(a, j) <==> ByteBit(b, j))
    ensures a == b
    decreases n
  {
    if n > 0 {
      assert ByteBit(a, 0) <==> ByteBit(b, 0);
      forall j | 0 <= j < n - 1 ensures ByteBit(a / 2, j) <==> ByteBit(b / 2, j) {
        assert ByteBit(a, j + 1) <==> ByteBit(b, j + 1);
      }
      SameBits(a / 2, b / 2, n - 1);
    }
  }

  lemma PowersOfTwo()
    ensures Pow2(15) == 0x8000 && Pow2(17) == 0x2_0000 && Pow2(32) == U32_LIMIT
  {
    assert Pow2(4) == 16 && Pow2(8) == 16 * Pow2(4) && Pow2(12) == 16 * Pow2(8) && Pow2(15) == 8 * Pow2(12);
    assert Pow2(17) == 4 * Pow2(15) && Pow2(21) == 16 * Pow2(17) && Pow2(25) == 16 * Pow2(21);
    assert Pow2(29) == 16 * Pow2(25) && Pow2(32) == 8 * Pow2(29);
  }

  // ----- the policy

  /** Hash values are 32 bits wide. */
  type u32 = n: nat | n < U32_LIMIT

  /** A Bloom policy over any hash function. */
  datatype Bloom = Bloom(bitsPerKey: nat, k: nat, hash: bytes -> u32) {
    ghost predicate Valid() { 1 <= k <= 30 }
  }

  /** The number of probes: 0.69 bits per key, between 1 and 30. */
  function ProbeCount(bitsPerKey: nat): (k: nat)
    ensures 1 <= k <= 30
    ensures k == 1 || k as real <= bitsPerKey as real * 0.69
    ensures k == 30 || bitsPerKey as real * 0.69 < (k + 1) as real
  {
    var k := (bitsPerKey as real * 0.69).Floor;
    if k < 1 then 1 else if k > 30 then 30 else k
  }

  /** The step from one probe to the next. */
  function Delta(h: u32): (d: u32) {
    h / 0x2_0000 + h % 0x2_0000 * 0x8000
  }

  /** `d` has the bits of `h`, rotated right by 17. */
  ghost predicate Rotated(h: u32, d: u32) {
    forall j :: 0 <= j < 32 ==> (ByteBit(d, j) <==> ByteBit(h, (j + 17) % 32))
  }

  lemma DeltaBit(h: u32, j: nat)
    requires j < 32
    ensures ByteBit(Delta(h), j) <==> ByteBit(h, (j + 17) % 32)
  {
    var high, low := h / 0x2_0000, h % 0x2_0000;
    var k := if j < 15 then j + 17 else j - 15;
    assert (j + 17) % 32 == k;
    hide ByteBit;
    DeltaJoins(h, j, k);
  }

  /** Both numbers are joined from the same two parts, one of 15 and one of 17 bits. */
  lemma DeltaJoins(h: u32, j: nat, k: nat)
    ensures var high, low := h / 0x2_0000, h % 0x2_0000;
      && (ByteBit(Delta(h), j) <==> if j < 15 then ByteBit(high, j) else ByteBit(low, j - 15))
      && (ByteBit(h, k) <==> if k < 17 then ByteBit(low, k) else ByteBit(high, k - 17))
  {
    var high, low := h / 0x2_0000, h % 0x2_0000;
    PowersOfTwo();
    hide Pow2, ByteBit;
    JoinedBits(high, low, 15, j);
    JoinedBits(low, high, 17, k);
    var x, y := Pow2(15), Pow2(17);
    assert Delta(h) == high + low * x && h == low + high * y;
  }

  /** The step is the hash rotated right by 17 bits. */
  lemma DeltaRotates(h: u32, d: u32)
    ensures d == Delta(h) <==> Rotated(h, d)
  {
    hide Pow2, ByteBit, Delta;
    forall j | 0 <= j < 32 ensures ByteBit(Delta(h), j) <==> ByteBit(h, (j + 17) % 32) {
      DeltaBit(h, j);
    }
    if Rotated(h, d) {
      PowersOfTwo();
      SameBits(d, Delta(h), 32);
    }
  }

  /** The hash of the `i`-th probe. */
  function HashAt(h: u32, d: u32, i: nat): u32 {
    (h + i * d) % U32_LIMIT
  }

  /** One probe further, in 32 bits. */
  function Advance(h: u32, d: u32): u32 {
    (h + d) % U32_LIMIT
  }

  lemma HashStart(h: u32, d: u32)
    ensures HashAt(h, d, 0) == h
  {
  }

  lemma Wraps(x: nat, q: nat, r: nat)
    requires x == U32_LIMIT * q + r && r < U32_LIMIT
    ensures x % U32_LIMIT == r
  {
  }

  lemma OneStepMore(i: nat, d: nat)
    ensures (i + 1) * d == i * d + d
  {
  }

  lemma HashStep(h: u32, d: u32, i: nat)
    ensures HashAt(h, d, i + 1) == Advance(HashAt(h, d, i), d)
  {
    OneStepMore(i, d);
    var x: nat := h + i * d;
    var rest: nat := x % U32_LIMIT + d;
    Wraps(x + d, x / U32_LIMIT + rest / U32_LIMIT, rest % U32_LIMIT);
  }

  /** Bytes of a filter for `n` keys, without the probe count at the end. */
  function FilterLength(b: Bloom, n: nat): (r: nat)
    ensures r >= 8 && r * 8 >= n * b.bitsPerKey && (r == 8 || r * 8 < n * b.bitsPerKey + 8)
  {
    if n * b.bitsPerKey < 64 then 8 else (n * b.bitsPerKey + 7) / 8
  }

  /** The number of bits as both sides compute it, in 32 bits. */
  function BitCount(length: nat): u32 {
    length * 8 % U32_LIMIT
  }

  predicate Bit(filter: bytes, p: nat)
    requires p / 8 < |filter|
  {
    ByteBit(filter[p / 8], p % 8)
  }

  /** `p` is one of the first `k` positions that a key probes among `bits`. */
  ghost predicate Probes(b: Bloom, key: bytes, bits: nat, k: nat, p: nat)
    requires bits > 0
  {
    var h := b.hash(key);
    exists i :: 0 <= i < k && HashAt(h, Delta(h), i) % bits == p
  }

  /** `p` is probed by one of the keys. */
  ghost predicate ProbedBy(b: Bloom, keys: seq<bytes>, bits: nat, p: nat)
    requires bits > 0
  {
    exists j :: 0 <= j < |keys| && Probes(b, keys[j], bits, b.k, p)
  }

  /** A filter holds exactly the positions that its keys probe, and the probe count. */
  ghost predicate Holds(b: Bloom, keys: seq<bytes>, filter: bytes)
    requires BitCount(FilterLength(b, |keys|)) > 0
  {
    var length := FilterLength(b, |keys|);
    && |filter| == length + 1
    && filter[length] == b.k
    && forall p :: 0 <= p < 8 * length ==> (Bit(filter, p) <==> ProbedBy(b, keys, BitCount(length), p))
  }

  lemma {:induction false} WithBitAdds(b: nat, i: nat)
    ensures WithBit(b, i) == if ByteBit(b, i) then b else b + Pow2(i)
    decreases i
  {
    if i > 0 {
      WithBitAdds(b / 2, i - 1);
    }
  }

  /** Sets one bit of a filter. */
  method SetBit(filter: bytes, p: nat, length: nat) returns (r: bytes)
    requires p / 8 < length < |filter|
    ensures |r| == |filter| && r[length..] == filter[length..]
    ensures forall q :: 0 <= q < 8 * length ==> (Bit(r, q) <==> q == p || Bit(filter, q))
    ensures var b := filter[p / 8];
      r == filter[p / 8 := r[p / 8]] && r[p / 8] == if ByteBit(b, p % 8) then b else b + Pow2(p % 8)
  {
    WithBitAdds(filter[p / 8], p % 8);
    hide ByteBit, WithBit, Pow2;
    WithBitIsByte(filter[p / 8], p % 8);
    r := filter[p / 8 := WithBit(filter[p / 8], p % 8)];
    forall q | 0 <= q < 8 * length ensures Bit(r, q) <==> q == p || Bit(filter, q) {
      WithBitSets(filter[p / 8], p % 8, q % 8);
    }
  }

  lemma ProbesOneMore(b: Bloom, key: bytes, bits: nat, k: nat, p: nat)
    requires bits > 0
    ensures var h := b.hash(key);
      Probes(b, key, bits, k + 1, p) <==> Probes(b, key, bits, k, p) || HashAt(h, Delta(h), k) % bits == p
  {
    hide HashAt, Delta;
  }

  /** Sets the bits of one key. */
  method AddKey(b: Bloom, key: bytes, filter: bytes, length: nat) returns (r: bytes)
    requires length < |filter| && BitCount(length) > 0
    ensures |r| == |filter| && r[length..] == filter[length..]
    ensures forall p :: 0 <= p < 8 * length ==>
            (Bit(r, p) <==> Bit(filter, p) || Probes(b, key, BitCount(length), b.k, p))
  {
    var bits := BitCount(length);
    assert bits <= 8 * length;
    var h := b.hash(key);
    var d := Delta(h);
    ghost var h0 := h;
    HashStart(h, d);
    r := filter;
    for i := 0 to b.k
      invariant h == HashAt(h0, d, i)
      invariant |r| == |filter| && r[length..] == filter[length..]
      invariant forall p :: 0 <= p < 8 * length ==> (Bit(r, p) <==> Bit(filter, p) || Probes(b, key, bits, i, p))
    {
      hide HashAt, Delta, Probes, Bit;
      ghost var before := r;
      r := SetBit(r, h % bits, length);
      forall p | 0 <= p < 8 * length ensures Bit(r, p) <==> Bit(filter, p) || Probes(b, key, bits, i + 1, p) {
        ProbesOneMore(b, key, bits, i, p);
        assert Bit(r, p) <==> p == h % bits || Bit(before, p);
      }
      HashStep(h0, d, i);
      h := Advance(h, d);
    }
  }

  lemma ProbedByOneMore(b: Bloom, keys: seq<bytes>, n: nat, bits: nat, p: nat)
    requires bits > 0 && n < |keys|
    ensures ProbedBy(b, keys[..n + 1], bits, p) <==> ProbedBy(b, keys[..n], bits, p) || Probes(b, keys[n], bits, b.k, p)
  {
    hide Probes;
    var a, c := keys[..n], keys[..n + 1];
    assert c[n] == keys[n] && forall j :: 0 <= j < n ==> c[j] == a[j];
  }

  lemma {:induction false} ZeroBit(i: nat)
    ensures !ByteBit(0, i)
  {
    if i > 0 {
      ZeroBit(i - 1);
    }
  }

  /** Builds the filter of the keys in a buffer. */
  method CreateFilter(b: Bloom, data: bytes, offsets: seq<nat>) returns (filter: bytes)
    requires b.Valid() && Offsets(data, offsets) && BitCount(FilterLength(b, |offsets|)) > 0
    ensures Holds(b, Pieces(data, offsets), filter)
  {
    ghost var keys := Pieces(data, offsets);
    var length := FilterLength(b, |offsets|);
    ghost var bits := BitCount(length);
    filter := seq(length, _ => 0) + [b.k];
    assert forall p :: 0 <= p < 8 * length ==> !Bit(filter, p) by { hide ByteBit; forall i: nat { ZeroBit(i); } }
    assert filter[length..] == [b.k];
    for i := 0 to |offsets|
      invariant |filter| == length + 1 && filter[length..] == [b.k]
      invariant forall p :: 0 <= p < 8 * length ==> (Bit(filter, p) <==> ProbedBy(b, keys[..i], bits, p))
    {
      hide Bit, Probes, ProbedBy, Pow2, FilterLength;
      ghost var before := filter;
      filter := AddKey(b, Piece(data, offsets, i), filter, length);
      forall p | 0 <= p < 8 * length ensures Bit(filter, p) <==> ProbedBy(b, keys[..i + 1], bits, p) {
        ProbedByOneMore(b, keys, i, bits, p);
        assert Bit(filter, p) <==> Bit(before, p) || Probes(b, keys[i], bits, b.k, p);
      }
    }
    assert keys[..|offsets|] == keys;
    assert filter[length] == filter[length..][0];
  }

  /** The filter answers whether every position that the key probes is set; without a usable count, yes. */
  ghost predicate MayMatch(b: Bloom, key: bytes, filter: bytes)
    requires Probeable(filter)
  {
    || filter == []
    || filter[|filter| - 1] > 30
    || forall i :: 0 <= i < filter[|filter| - 1] ==> ProbeSet(b, key, filter, i)
  }

  /** The position of the `i`-th probe is set. */
  ghost predicate ProbeSet(b: Bloom, key: bytes, filter: bytes, i: nat)
    requires filter != [] && BitCount(|filter| - 1) > 0
  {
    Bit(filter, ProbeAt(b, key, BitCount(|filter| - 1), i))
  }

  /** The remainder by the number of bits is taken only if there is a bit, and then falls inside. */
  ghost predicate Probeable(filter: bytes) {
    filter == [] || filter[|filter| - 1] == 0 || filter[|filter| - 1] > 30 || BitCount(|filter| - 1) > 0
  }

  ghost function ProbeAt(b: Bloom, key: bytes, bits: nat, i: nat): (p: nat)
    requires bits > 0
    ensures p < bits
  {
    var h := b.hash(key);
    HashAt(h, Delta(h), i) % bits
  }

  method KeyMayMatch(b: Bloom, key: bytes, filter: bytes) returns (r: bool)
    requires Probeable(filter)
    ensures r <==> MayMatch(b, key, filter)
    ensures filter == [] || filter[|filter| - 1] > 30 ==> r
    ensures filter != [] && filter[|filter| - 1] <= 30 ==>
              (r <==> forall i :: 0 <= i < filter[|filter| - 1] ==>
                  ProbeSet(b, key, filter, i))
  {
    hide HashAt, Delta, Bit;
    if filter == [] {
      return true;
    }
    var bits := BitCount(|filter| - 1);
    var k := filter[|filter| - 1];
    if k > 30 {
      return true;
    }
    var h := b.hash(key);
    var d := Delta(h);
    ghost var h0 := h;
    HashStart(h, d);
    for i := 0 to k
      invariant h == HashAt(h0, d, i)
      invariant forall j :: 0 <= j < i ==> ProbeSet(b, key, filter, j)
    {
      assert h % bits == ProbeAt(b, key, bits, i);
      if !Bit(filter, h % bits) {
        assert !ProbeSet(b, key, filter, i);
        return false;
      }
      HashStep(h0, d, i);
      h := Advance(h, d);
    }
    r := true;
  }

  /**
    No false negatives, whoever asks: a reader configured with other bits per key but the same hash
    finds every key of the filter, because it takes the probe count from the filter.
   */
  lemma NoFalseNegatives(b: Bloom, keys: seq<bytes>, filter: bytes, reader: Bloom, key: bytes)
    requires b.Valid() && BitCount(FilterLength(b, |keys|)) > 0 && Holds(b, keys, filter)
    requires reader.hash == b.hash && key in keys
    ensures Probeable(filter) && MayMatch(reader, key, filter)
  {
    hide Bit, HashAt, Delta, FilterLength;
    var length := FilterLength(b, |keys|);
    var bits := BitCount(length);
    var j :| 0 <= j < |keys| && keys[j] == key;
    forall i | 0 <= i < b.k ensures ProbeSet(reader, key, filter, i) {
      var p := ProbeAt(reader, key, bits, i);
      assert Probes(b, keys[j], bits, b.k, p);
      assert ProbedBy(b, keys, bits, p);
    }
  }

  /** And no other false positives: a key that matches has every position probed by some key of the filter. */
  lemma MatchesExactly(b: Bloom, keys: seq<bytes>, filter: bytes, key: bytes)
    requires b.Valid() && BitCount(FilterLength(b, |keys|)) > 0 && Holds(b, keys, filter)
    ensures Probeable(filter)
    ensures MayMatch(b, key, filter) <==>
            forall i :: 0 <= i < b.k ==> Collides(b, keys, key, i)
  {
    hide Bit, HashAt, Delta, FilterLength, ProbedBy;
    forall i | 0 <= i < b.k ensures ProbeSet(b, key, filter, i) <==> Collides(b, keys, key, i) {
    }
  }

  /** The position of a key's `i`-th probe is one that the keys of the filter probe. */
  ghost predicate Collides(b: Bloom, keys: seq<bytes>, key: bytes, i: nat)
    requires BitCount(FilterLength(b, |keys|)) > 0
  {
    var bits := BitCount(FilterLength(b, |keys|));
    ProbedBy(b, keys, bits, ProbeAt(b, key, bits, i))
  }

  // ----- internal keys

  const TAG: nat := 8

  ghost function UserKeys(keys: seq<bytes>): (r: seq<bytes>)
    requires forall i :: 0 <= i < |keys| ==> |keys[i]| >= TAG
  {
    seq(|keys|, i requires 0 <= i < |keys| => keys[i][..|keys[i]| - TAG])
  }

  /** Builds the filter of the user keys of the internal keys in a buffer. */
  method CreateInternalFilter(b: Bloom, data: bytes, offsets: seq<nat>) returns (filter: bytes)
    requires b.Valid() && Offsets(data, offsets) && BitCount(FilterLength(b, |offsets|)) > 0
    requires forall i :: 0 <= i < |offsets| ==> |Piece(data, offsets, i)| >= TAG
    ensures Holds(b, UserKeys(Pieces(data, offsets)), filter)
  {
    ghost var keys := UserKeys(Pieces(data, offsets));
    var d: bytes := [];
    var o: seq<nat> := [];
    for i := 0 to |offsets|
      invariant |o| == i && Offsets(d, o) && Pieces(d, o) == keys[..i]
    {
      var piece := Piece(data, offsets, i);
      AppendPiece(d, o, piece[..|piece| - TAG]);
      o := o + [|d|];
      d := d + piece[..|piece| - TAG];
    }
    assert keys[..|offsets|] == keys;
    filter := CreateFilter(b, d, o);
  }

  /** The wrapper's answer for an internal key is the policy's for its user key. */
  method InternalKeyMayMatch(b: Bloom, key: bytes, filter: bytes) returns (r: bool)
    requires |key| >= TAG && Probeable(filter)
    ensures r <==> MayMatch(b, key[..|key| - TAG], filter)
  {
    r := KeyMayMatch(b, key[..|key| - TAG], filter);
  }

  /** Every version of a user key is found in a filter built from any version of it. */
  lemma TagsIgnored(b: Bloom, keys: seq<bytes>, filter: bytes, reader: Bloom, key: bytes, j: nat)
    requires b.Valid() && (forall i :: 0 <= i < |keys| ==> |keys[i]| >= TAG)
    requires BitCount(FilterLength(b, |UserKeys(keys)|)) > 0 && Holds(b, UserKeys(keys), filter)
    requires reader.hash == b.hash && j < |keys| && |key| >= TAG && key[..|key| - TAG] == keys[j][..|keys[j]| - TAG]
    ensures Probeable(filter) && MayMatch(reader, key[..|key| - TAG], filter)
  {
    assert UserKeys(keys)[j] == key[..|key| - TAG];
    NoFalseNegatives(b, UserKeys(keys), filter, reader, key[..|key| - TAG]);
  }
}
