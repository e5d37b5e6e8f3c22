/**
  Key formats. An internal key is a user key followed by an 8-byte tag holding sequence number and
  entry type; a memtable key is an internal key behind its length, followed by the value behind its.
 */
module Keys {
  import opened Order
  import opened Codec
  import opened Versions

  const U64_SPACE: nat := 8

  /** Sequence numbers leave one byte of the tag for the type. */
  type Seq = s: nat | s <= MAX_SEQUENCE_NUMBER

  function TypeCode(t: Kind): byte {
    match t case Deletion => 0 case Value => 1
  }

  function Tag(s: Seq, t: Kind): nat {
    s * 256 + TypeCode(t)
  }

  /** Type bytes other than 0 read as a value. */
  function ParseTag(tag: nat): (Kind, nat) {
    (if tag % 256 == 0 then Deletion else Value, tag / 256)
  }

  function InternalKey(k: bytes, s: Seq, t: Kind): (r: bytes)
    ensures |r| == |k| + U64_SPACE
  {
    k + EncodeFixed(Tag(s, t), 8)
  }

  /** The key of a lookup, without a value. */
  function LookupKey(k: bytes, s: Seq, t: Kind): bytes {
    EncodeVar(|k| + U64_SPACE) + InternalKey(k, s, t)
  }

  function MemtableKey(e: Entry): bytes
    requires e.sn <= MAX_SEQUENCE_NUMBER
  {
    EncodeVar(|e.ukey| + U64_SPACE) + InternalKey(e.ukey, e.sn, e.kind) + (EncodeVar(|e.val|) + e.val)
  }

  /** An empty key parses as a deletion with sequence number 0; anything else must hold a tag. */
  function ParseInternalKey(ikey: bytes): (Kind, nat, bytes)
    requires ikey == [] || |ikey| >= U64_SPACE
  {
    if ikey == [] then (Deletion, 0, [])
    else
      var (t, s) := ParseTag(DecodeFixed(ikey[|ikey| - 8..]));
      (t, s, ikey[..|ikey| - 8])
  }

  /** Key length, key offset, tag, value length and value offset; the last three are 0 for a bare length. */
  function ParseMemtableKey(mkey: bytes): (nat, nat, nat, nat, nat)
    requires var (keylen, i) := DecodeVar(mkey);
      8 <= keylen && (|mkey| > i + keylen - 8 ==> |mkey| >= i + keylen)
  {
    var (keylen, keyoff) := DecodeVar(mkey);
    var i := keyoff + keylen - 8;
    if |mkey| > i then
      var tag := DecodeFixed(mkey[i..i + 8]);
      var (vallen, j) := DecodeVar(mkey[i + 8..]);
      (keylen - 8, keyoff, tag, vallen, i + 8 + j)
    else (keylen - 8, keyoff, 0, 0, 0)
  }

  function Compare(a: nat, b: nat): Ordering {
    if a < b then Less else if a == b then Equal else Greater
  }

  function CmpInternalKey(ucmp: Cmp, a: bytes, b: bytes): Ordering
    requires |a| >= U64_SPACE && |b| >= U64_SPACE
  {
    match ucmp(a[..|a| - 8], b[..|b| - 8])
    case Less => Less
    case Greater => Greater
    case Equal =>
      Compare(ParseTag(DecodeFixed(b[|b| - 8..])).1, ParseTag(DecodeFixed(a[|a| - 8..])).1)
  }

  /** The memtable key starts with a length that its user key and tag fit. */
  predicate HoldsKey(m: bytes) {
    var (len, off) := DecodeVar(m);
    8 <= len && off + len <= |m|
  }

  function CmpMemtableKey(ucmp: Cmp, a: bytes, b: bytes): Ordering
    requires HoldsKey(a) && HoldsKey(b)
  {
    var (alen, aoff) := DecodeVar(a);
    var (blen, boff) := DecodeVar(b);
    match ucmp(a[aoff..aoff + alen - 8], b[boff..boff + blen - 8])
    case Less => Less
    case Greater => Greater
    case Equal =>
      Compare(ParseTag(DecodeFixed(b[boff + blen - 8..boff + blen])).1,
          ParseTag(DecodeFixed(a[aoff + alen - 8..aoff + alen])).1)
  }

  // ----- parsing undoes building

  lemma TagRoundTrip(s: Seq, t: Kind)
    ensures ParseTag(DecodeFixed(EncodeFixed(Tag(s, t), 8))) == (t, s)
            && DecodeFixed(EncodeFixed(Tag(s, t), 8)) == Tag(s, t)
  {
    assert Pow256(8) == 256 * Pow256(7) && Pow256(7) == 256 * Pow256(6) && Pow256(6) == 256 * Pow256(5);
    assert Pow256(5) == 256 * Pow256(4) && Pow256(4) == 256 * Pow256(3) && Pow256(3) == 256 * Pow256(2)
           && Pow256(2) == 256 * Pow256(1);
    FixedRoundTrip(Tag(s, t), 8);
  }

  lemma InternalKeyRoundTrip(k: bytes, s: Seq, t: Kind)
    ensures ParseInternalKey(InternalKey(k, s, t)) == (t, s, k)
  {
    hide EncodeFixed, DecodeFixed, ParseTag;
    var ikey := InternalKey(k, s, t);
    assert ikey[|ikey| - 8..] == EncodeFixed(Tag(s, t), 8) && ikey[..|ikey| - 8] == k;
    TagRoundTrip(s, t);
  }

  /** Where the parts of a memtable key, with or without a value, are. */
  lemma MemtableParts(m: bytes, k: bytes, s: Seq, t: Kind, rest: bytes)
    requires m == LookupKey(k, s, t) + rest
    ensures HoldsKey(m)
    ensures var (len, off) := DecodeVar(m);
      && len == |k| + 8 && m[off..off + len - 8] == k
      && m[off + len - 8..off + len] == EncodeFixed(Tag(s, t), 8) && m[off + len..] == rest
  {
    var x, tag := EncodeVar(|k| + 8), EncodeFixed(Tag(s, t), 8);
    assert m == x + (k + tag + rest);
    VarRoundTrip(|k| + 8, k + tag + rest);
    hide EncodeVar, DecodeVar, EncodeFixed;
    CutKey(m, x, k, tag, rest);
  }

  lemma CutKey(m: bytes, x: bytes, k: bytes, tag: bytes, rest: bytes)
    requires m == x + (k + tag + rest)
    ensures |m| == |x| + |k| + |tag| + |rest|
    ensures m[|x|..|x| + |k|] == k && m[|x| + |k|..|x| + |k| + |tag|] == tag && m[|x| + |k| + |tag|..] == rest
  {
  }

  /** A built memtable key parses back to its user key, sequence number, type and value. */
  lemma MemtableKeyRoundTrip(e: Entry)
    requires e.sn <= MAX_SEQUENCE_NUMBER
    ensures var m := MemtableKey(e);
      && HoldsKey(m)
      && var (keylen, keyoff, tag, vallen, valoff) := ParseMemtableKey(m);
      && keyoff + keylen <= valoff && valoff + vallen == |m|
      && m[keyoff..keyoff + keylen] == e.ukey && tag == Tag(e.sn, e.kind) && ParseTag(tag) == (e.kind, e.sn)
      && m[valoff..valoff + vallen] == e.val
  {
    hide EncodeFixed, DecodeFixed, EncodeVar, DecodeVar, ParseTag;
    var m, v := MemtableKey(e), EncodeVar(|e.val|) + e.val;
    MemtableParts(m, e.ukey, e.sn, e.kind, v);
    TagRoundTrip(e.sn, e.kind);
    var (len, off) := DecodeVar(m);
    assert m[off + len..] == v;
    VarRoundTrip(|e.val|, e.val);
    assert v[|EncodeVar(|e.val|)|..] == e.val;
    assert m[off + len - 8..][8..] == m[off + len..];
  }

  /** A lookup key holds its user key, and parses back to it and its tag, with an empty value at its end. */
  lemma LookupKeyRoundTrip(k: bytes, s: Seq, t: Kind)
    ensures var m := LookupKey(k, s, t);
      && HoldsKey(m)
      && var (len, off) := DecodeVar(m);
      && off + len == |m| && m[off..|m| - 8] == k && m[off..] == InternalKey(k, s, t)
      && ParseMemtableKey(m) == (|k|, off, Tag(s, t), 0, |m|)
  {
    hide EncodeVar, DecodeVar, EncodeFixed, DecodeFixed;
    var m := LookupKey(k, s, t);
    assert m == m + [];
    MemtableParts(m, k, s, t, []);
    TagRoundTrip(s, t);
    NothingDecodes();
    var (len, off) := DecodeVar(m);
    assert m[off..] == m[off..off + len - 8] + m[off + len - 8..off + len];
  }

  lemma NothingDecodes()
    ensures DecodeVar([]) == (0, 0)
  {
  }

  // ----- comparing encodings compares what they encode

  /** User keys ascending, then sequence numbers descending. */
  function CmpVersions(ucmp: Cmp, k1: bytes, s1: nat, k2: bytes, s2: nat): Ordering {
    match ucmp(k1, k2)
    case Less => Less
    case Greater => Greater
    case Equal => Compare(s2, s1)
  }

  lemma InternalKeysCompare(ucmp: Cmp, k1: bytes, s1: Seq, t1: Kind, k2: bytes, s2: Seq, t2: Kind)
    ensures CmpInternalKey(ucmp, InternalKey(k1, s1, t1), InternalKey(k2, s2, t2)) == CmpVersions(ucmp, k1, s1, k2, s2)
  {
    hide EncodeFixed, DecodeFixed, ParseTag;
    var a, b := InternalKey(k1, s1, t1), InternalKey(k2, s2, t2);
    assert a[|a| - 8..] == EncodeFixed(Tag(s1, t1), 8) && a[..|a| - 8] == k1;
    assert b[|b| - 8..] == EncodeFixed(Tag(s2, t2), 8) && b[..|b| - 8] == k2;
    TagRoundTrip(s1, t1);
    TagRoundTrip(s2, t2);
  }

  lemma MemtableKeysCompare(ucmp: Cmp, a: bytes, k1: bytes, s1: Seq, t1: Kind, rest1: bytes,
                                               b: bytes, k2: bytes, s2: Seq, t2: Kind, rest2: bytes)
    requires a == LookupKey(k1, s1, t1) + rest1 && b == LookupKey(k2, s2, t2) + rest2
    ensures HoldsKey(a) && HoldsKey(b)
    ensures CmpMemtableKey(ucmp, a, b) == CmpVersions(ucmp, k1, s1, k2, s2)
  {
    hide EncodeFixed, DecodeFixed, EncodeVar, DecodeVar, ParseTag, LookupKey;
    MemtableParts(a, k1, s1, t1, rest1);
    MemtableParts(b, k2, s2, t2, rest2);
    TagRoundTrip(s1, t1);
    TagRoundTrip(s2, t2);
  }
}
