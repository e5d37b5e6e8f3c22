/** The byte-wise comparator, and the short separators and successors that index blocks store instead of full keys. */
module Comparators {
  import opened Order
  import opened Versions
  import opened Codec
  import opened Keys

  /** Lexicographic comparison of byte strings. */
  function BytesCmp(a: bytes, b: bytes): Ordering
    decreases a
  {
    if a == [] then if b == [] then Equal else Less
    else if b == [] then Greater
    else if a[0] < b[0] then Less
    else if a[0] > b[0] then Greater
    else BytesCmp(a[1..], b[1..])
  }

  /** `a` and `b` agree up to `i`, where `a` ends or has the smaller byte. */
  ghost predicate SmallerAt(a: bytes, b: bytes, i: nat) {
    && i <= |a| && i < |b| && a[..i] == b[..i]
    && (i == |a| || a[i] < b[i])
  }

  lemma {:induction false} LessAt(a: bytes, b: bytes, i: nat)
    requires SmallerAt(a, b, i)
    ensures BytesCmp(a, b) == Less
    decreases i
  {
    if i > 0 {
      assert a[0] == a[..i][0] == b[..i][0] == b[0];
      assert a[1..][..i - 1] == a[..i][1..] && b[1..][..i - 1] == b[..i][1..];
      LessAt(a[1..], b[1..], i - 1);
    }
  }

  lemma {:induction false} FirstDifference(a: bytes, b: bytes) returns (i: nat)
    requires BytesCmp(a, b) == Less
    ensures SmallerAt(a, b, i)
    decreases a
  {
    if a == [] || a[0] < b[0] {
      i := 0;
    } else {
      var j := FirstDifference(a[1..], b[1..]);
      i := j + 1;
      assert a[..i] == [a[0]] + a[1..][..j] && b[..i] == [b[0]] + b[1..][..j];
    }
  }

  lemma {:induction false} EqualIsSame(a: bytes, b: bytes)
    ensures BytesCmp(a, b) == Equal <==> a == b
    decreases a
  {
    if a != [] && b != [] {
      EqualIsSame(a[1..], b[1..]);
      assert a == [a[0]] + a[1..] && b == [b[0]] + b[1..];
    }
  }

  lemma {:induction false} LessIsGreater(a: bytes, b: bytes)
    ensures BytesCmp(a, b) == Less <==> BytesCmp(b, a) == Greater
    decreases a
  {
    if a != [] && b != [] {
      LessIsGreater(a[1..], b[1..]);
    }
  }

  lemma {:induction false} LessIsTransitive(a: bytes, b: bytes, c: bytes)
    requires BytesCmp(a, b) == Less && BytesCmp(b, c) == Less
    ensures BytesCmp(a, c) == Less
    decreases a
  {
    if a != [] && a[0] == b[0] == c[0] {
      LessIsTransitive(a[1..], b[1..], c[1..]);
    }
  }

  /** The default comparator is a total order on byte strings. */
  lemma DefaultOrderIsTotal()
    ensures TotalOrder(BytesCmp)
  {
    forall a, b ensures BytesCmp(a, b) == Equal <==> a == b { EqualIsSame(a, b); }
    forall a, b ensures BytesCmp(a, b) == Less <==> BytesCmp(b, a) == Greater { LessIsGreater(a, b); }
    forall a, b, c | BytesCmp(a, b) == Less && BytesCmp(b, c) == Less ensures BytesCmp(a, c) == Less {
      LessIsTransitive(a, b, c);
    }
  }

  // ----- separators

  /** Number of leading bytes two strings have in common. */
  method CommonPrefix(a: bytes, b: bytes) returns (d: nat)
    ensures d <= |a| && d <= |b| && a[..d] == b[..d]
    ensures d == |a| || d == |b| || a[d] != b[d]
  {
    d := 0;
    while d < |a| && d < |b| && a[d] == b[d]
      invariant d <= |a| && d <= |b| && a[..d] == b[..d]
    {
      d := d + 1;
    }
  }

  /** Byte `d` of `a` can be raised and stay below that of `b`. */
  predicate Raisable(a: bytes, b: bytes, d: nat) {
    d < |a| && d < |b| && a[d] < 0xff && a[d] + 1 < b[d]
  }

  /** `d` is the first place from `d0` on where `a` can be raised. */
  ghost predicate FirstRaisable(a: bytes, b: bytes, d0: nat, d: nat) {
    d0 <= d && Raisable(a, b, d) && forall c :: d0 <= c < d ==> !Raisable(a, b, c)
  }

  /** Tries to cut `a` after the first byte that can be raised and stay below `b`. */
  method ShortSeparator(a: bytes, b: bytes, d0: nat) returns (r: Option<bytes>)
    requires SmallerAt(a, b, d0)
    ensures r.Some? ==> BytesCmp(a, r.value) == Less && BytesCmp(r.value, b) == Less && d0 < |r.value| <= |a|
    ensures r.Some? ==> (|r.value| == d0 + 1 <==> Raisable(a, b, d0)) && |r.value| <= |b|
    ensures r.Some? ==>
              var d := |r.value| - 1; FirstRaisable(a, b, d0, d) && r.value == a[..d] + [a[d] + 1]
    ensures r.Some? ==> SeparatorIs(a, b, d0, r.value)
    ensures r.None? ==> forall d :: d0 <= d ==> !Raisable(a, b, d)
  {
    hide BytesCmp;
    var d := d0;
    while d < |a| && d < |b|
      invariant d0 <= d && forall c :: d0 <= c < d ==> !Raisable(a, b, c)
    {
      if a[d] < 0xff && a[d] + 1 < b[d] {
        assert FirstRaisable(a, b, d0, d);
        var sep := a[..d] + [a[d] + 1];
        assert sep[..d] == a[..d] && sep[..d0] == a[..d0];
        LessAt(a, sep, d);
        LessAt(sep, b, d0);
        return Some(sep);
      }
      d := d + 1;
    }
    r := None;
  }

  /** The last byte of `a` that is not 0xff, or the first. */
  method LastRaisable(a: bytes) returns (i: nat)
    requires a != []
    ensures i < |a| && (forall c :: i < c < |a| ==> a[c] == 0xff) && (i > 0 ==> a[i] < 0xff)
  {
    i := |a| - 1;
    while i > 0 && a[i] == 0xff
      invariant i < |a| && forall c :: i < c < |a| ==> a[c] == 0xff
    {
      i := i - 1;
    }
  }

  lemma RaisedCompares(a: bytes, b: bytes, i: nat, d0: nat)
    requires i < |a| && a[i] < 0xff && SmallerAt(a, b, d0)
    ensures var sep := a[i := a[i] + 1];
            && BytesCmp(a, sep) == Less
            && (d0 < i ==> BytesCmp(sep, b) == Less)
            && (i < d0 ==> BytesCmp(sep, b) != Less)
            && (i == d0 && !Raisable(a, b, d0) && |b| == d0 + 1 ==> BytesCmp(sep, b) != Less)
            && (i == d0 && !Raisable(a, b, d0) && |b| > d0 + 1 && |a| == d0 + 1 ==> BytesCmp(sep, b) == Less)
  {
    hide BytesCmp;
    var sep := a[i := a[i] + 1];
    assert sep[..i] == a[..i];
    LessAt(a, sep, i);
    if d0 < i {
      assert sep[..d0] == a[..d0];
      LessAt(sep, b, d0);
    } else if i < d0 {
      assert a[..d0][..i] == a[..i] && b[..d0][..i] == b[..i] && a[i] == a[..d0][i] == b[..d0][i] == b[i];
      LessAt(b, sep, i);
      LessIsGreater(b, sep);
    } else if !Raisable(a, b, d0) {
      assert sep[..d0 + 1] == a[..d0] + [b[d0]] == b[..d0 + 1];
      if |b| == d0 + 1 {
        if |a| == d0 + 1 {
          assert sep == sep[..d0 + 1] == b[..d0 + 1] == b;
          EqualIsSame(sep, b);
        } else {
          LessAt(b, sep, d0 + 1);
          LessIsGreater(b, sep);
        }
      } else if |a| == d0 + 1 {
        LessAt(sep, b, d0 + 1);
      }
    }
  }

  /** Byte `i` of `a` is the last one that is not 0xff. */
  ghost predicate LastBelowMax(a: bytes, i: nat) {
    i < |a| && a[i] < 0xff && forall c :: i < c < |a| ==> a[c] == 0xff
  }

  /** Tries to raise the last byte of `a` that can be raised, keeping the length. */
  method RaisedSeparator(a: bytes, b: bytes, ghost d0: nat) returns (r: Option<bytes>)
    requires a != [] && SmallerAt(a, b, d0) && forall d :: d0 <= d ==> !Raisable(a, b, d)
    ensures r.Some? ==> BytesCmp(a, r.value) == Less && BytesCmp(r.value, b) == Less && |r.value| == |a| && d0 < |a|
    ensures d0 < |a| && |b| == d0 + 1 ==> (r.Some? <==> exists c :: d0 < c < |a| && a[c] != 0xff)
    ensures d0 < |a| == d0 + 1 < |b| ==> r.Some?
    ensures r.Some? ==> exists i: nat :: LastBelowMax(a, i) && r.value == a[i := a[i] + 1]
    ensures r.None? ==> forall i: nat :: LastBelowMax(a, i) ==> BytesCmp(a[i := a[i] + 1], b) != Less
    ensures SeparatorIs(a, b, d0, if r.Some? then r.value else a + [0])
  {
    hide BytesCmp;
    var i := LastRaisable(a);
    if a[i] < 0xff {
      RaisedCompares(a, b, i, d0);
      var sep := a[i := a[i] + 1];
      assert LastBelowMax(a, i);
      if BytesCmp(sep, b) == Less {
        return Some(sep);
      }
    }
    r := None;
  }

  /** What appending a zero byte gives. */
  lemma ZeroByteSeparates(a: bytes, b: bytes, d0: nat)
    requires SmallerAt(a, b, d0)
    ensures BytesCmp(a, a + [0]) == Less
    ensures b != a + [0] ==> BytesCmp(a + [0], b) == Less
    ensures b == a + [0] ==> d0 == |a|
  {
    hide BytesCmp;
    var s := a + [0];
    assert s[..|a|] == a[..|a|] == a;
    LessAt(a, s, |a|);
    if d0 < |a| {
      assert s[..d0] == a[..d0];
      LessAt(s, b, d0);
    } else if b != s {
      ZeroByteBelow(a, b);
    }
  }

  lemma ZeroByteBelow(a: bytes, b: bytes)
    requires |a| < |b| && b[..|a|] == a && b != a + [0]
    ensures BytesCmp(a + [0], b) == Less
  {
    hide BytesCmp;
    var s := a + [0];
    assert s[..|a|] == a;
    assert b[..|a| + 1] == a + [b[|a|]];
    if b[|a|] > 0 {
      LessAt(s, b, |a|);
    } else {
      assert s[..|a| + 1] == s;
      LessAt(s, b, |a| + 1);
    }
  }

  /** How long the separator is, if the keys differ at `d0`. */
  ghost predicate LengthIs(a: bytes, b: bytes, d0: nat, n: nat) {
    if d0 >= |a| then n == |a| + 1
    else if Raisable(a, b, d0) then n == d0 + 1
    else if |b| > d0 + 1 then if |a| == d0 + 1 then n == |a| else n > d0 + 1
    else n == if exists c :: d0 < c < |a| && a[c] != 0xff then |a| else |a| + 1
  }

  /** Which string the separator is: `a` cut and raised, raised in place, or longer by a zero byte. */
  ghost predicate SeparatorIs(a: bytes, b: bytes, d0: nat, sep: bytes) {
    || (exists d: nat :: FirstRaisable(a, b, d0, d) && sep == a[..d] + [a[d] + 1])
    || (&& (forall d :: d0 <= d ==> !Raisable(a, b, d))
        && ((exists i: nat :: LastBelowMax(a, i) && sep == a[i := a[i] + 1] && BytesCmp(sep, b) == Less)
            || (sep == a + [0] && forall i: nat :: LastBelowMax(a, i) ==> BytesCmp(a[i := a[i] + 1], b) != Less)))
  }

  /**
    A separator of two keys: above the first, and below the second except when the second is the
    first with a zero byte appended, where there is nothing in between and the second is returned.
   */
  method FindShortestSep(a: bytes, b: bytes) returns (sep: bytes)
    requires a == b || (BytesCmp(a, b) == Less && a != [])
    ensures a == b ==> sep == a
    ensures a != b ==> BytesCmp(a, sep) == Less
    ensures a != b ==> if b == a + [0] then sep == b else BytesCmp(sep, b) == Less
    ensures a != b ==> forall d0 :: SmallerAt(a, b, d0) ==> LengthIs(a, b, d0, |sep|) && SeparatorIs(a, b, d0, sep)
  {
    if a == b {
      return a;
    }
    ghost var i := FirstDifference(a, b);
    hide BytesCmp;
    var d0 := CommonPrefix(a, b);
    SameDifference(a, b, i, d0);
    forall d | SmallerAt(a, b, d) ensures d == d0 { DifferOnce(a, b, d, d0); }
    ZeroByteSeparates(a, b, d0);
    hide SmallerAt, SeparatorIs, FirstRaisable, LastBelowMax;
    var short := ShortSeparator(a, b, d0);
    if short.Some? {
      return short.value;
    }
    var raised := RaisedSeparator(a, b, d0);
    if raised.Some? {
      return raised.value;
    }
    sep := a + [0];
  }

  lemma DifferOnce(a: bytes, b: bytes, d: nat, d0: nat)
    requires SmallerAt(a, b, d) && SmallerAt(a, b, d0)
    ensures d == d0
  {
    SameDifference(a, b, d, d0);
  }

  /** No string between the two keys is shorter. */
  ghost predicate Shortest(a: bytes, b: bytes, n: nat) {
    forall t :: BytesCmp(a, t) == Less && BytesCmp(t, b) == Less ==> |t| >= n
  }

  /** When the separator is as short as can be, for keys that differ at `d0`. */
  predicate Tight(a: bytes, b: bytes, d0: nat) {
    || d0 >= |a|
    || Raisable(a, b, d0)
    || (|b| > d0 + 1 && |a| == d0 + 1)
    || (|b| == d0 + 1 && forall c :: d0 < c < |a| - 1 ==> a[c] == 0xff)
  }

  /** A string between two keys differs from the first where they differ from each other, or later. */
  lemma {:induction false} BetweenDiffers(a: bytes, b: bytes, d0: nat, t: bytes) returns (i: nat)
    requires SmallerAt(a, b, d0) && BytesCmp(a, t) == Less && BytesCmp(t, b) == Less
    ensures SmallerAt(a, t, i) && d0 <= i
    ensures i == d0 && d0 < |a| ==> t[d0] <= b[d0] && (t[d0] == b[d0] ==> |b| > d0 + 1)
  {
    i := FirstDifference(a, t);
    var k := FirstDifference(t, b);
    hide BytesCmp;
    assert forall j :: 0 <= j < d0 ==> a[j] == b[j] by {
      forall j | 0 <= j < d0 ensures a[j] == b[j] { assert a[..d0][j] == b[..d0][j]; }
    }
    assert forall j :: 0 <= j < i ==> a[j] == t[j] by {
      forall j | 0 <= j < i ensures a[j] == t[j] { assert a[..i][j] == t[..i][j]; }
    }
    assert forall j :: 0 <= j < k ==> t[j] == b[j] by {
      forall j | 0 <= j < k ensures t[j] == b[j] { assert t[..k][j] == b[..k][j]; }
    }
  }

  lemma TightIsShortest(a: bytes, b: bytes, d0: nat, n: nat, t: bytes)
    requires SmallerAt(a, b, d0) && LengthIs(a, b, d0, n) && Tight(a, b, d0)
    requires BytesCmp(a, t) == Less && BytesCmp(t, b) == Less
    ensures |t| >= n
  {
    var i := BetweenDiffers(a, b, d0, t);
  }

  lemma LooseIsNot(a: bytes, b: bytes, d0: nat, n: nat) returns (t: bytes)
    requires SmallerAt(a, b, d0) && LengthIs(a, b, d0, n) && !Tight(a, b, d0)
    ensures BytesCmp(a, t) == Less && BytesCmp(t, b) == Less && |t| < n
  {
    hide BytesCmp;
    if |b| > d0 + 1 {
      t := b[..d0 + 1];
      assert t[..d0] == b[..d0];
      LessAt(a, t, d0);
      LessAt(t, b, d0 + 1);
    } else {
      var c :| d0 < c < |a| - 1 && a[c] != 0xff;
      t := a[..c] + [a[c] + 1];
      assert t[..c] == a[..c] && t[..d0] == a[..d0];
      LessAt(a, t, c);
      LessAt(t, b, d0);
    }
  }

  /** The separator is the shortest string between its keys exactly when they are `Tight`. */
  lemma ShortestExactly(a: bytes, b: bytes, d0: nat, n: nat)
    requires SmallerAt(a, b, d0) && LengthIs(a, b, d0, n)
    ensures Shortest(a, b, n) <==> Tight(a, b, d0)
  {
    hide BytesCmp, LengthIs;
    if Tight(a, b, d0) {
      forall t | BytesCmp(a, t) == Less && BytesCmp(t, b) == Less ensures |t| >= n {
        TightIsShortest(a, b, d0, n, t);
      }
    } else {
      var t := LooseIsNot(a, b, d0, n);
    }
  }

  /** Between `[1, 5, 5]` and `[2]` the separator has three bytes, and `[1, 6]` would do. */
  method LongSeparator() returns (sep: bytes)
    ensures |sep| == 3 && BytesCmp([1, 5, 5], [1, 6]) == Less && BytesCmp([1, 6], [2]) == Less
  {
    LessAt([1, 5, 5], [2], 0);
    LessAt([1, 5, 5], [1, 6], 1);
    LessAt([1, 6], [2], 0);
    sep := FindShortestSep([1, 5, 5], [2]);
    assert SmallerAt([1, 5, 5], [2], 0);
    assert [1, 5, 5][1] != 0xff;
  }

  lemma SameDifference(a: bytes, b: bytes, i: nat, d: nat)
    requires SmallerAt(a, b, i)
    requires d <= |a| && d <= |b| && a[..d] == b[..d] && (d == |a| || d == |b| || a[d] != b[d])
    ensures d == i
  {
    assert forall j :: 0 <= j < d ==> a[j] == b[j] by {
      forall j | 0 <= j < d ensures a[j] == b[j] { assert a[..d][j] == b[..d][j]; }
    }
    assert forall j :: 0 <= j < i ==> a[j] == b[j] by {
      forall j | 0 <= j < i ensures a[j] == b[j] { assert a[..i][j] == b[..i][j]; }
    }
  }

  // ----- successors

  lemma NothingShorter(a: bytes, n: nat, t: bytes)
    requires n <= |a| && (forall j :: 0 <= j < n ==> a[j] == 0xff) && |t| <= n
    ensures BytesCmp(a, t) != Less
  {
    if BytesCmp(a, t) == Less {
      var i := FirstDifference(a, t);
      assert false;
    }
  }

  /** Above a key, and no shorter string is. */
  ghost predicate ShortSucc(a: bytes, r: bytes) {
    BytesCmp(a, r) == Less && forall t :: |t| < |r| ==> BytesCmp(a, t) != Less
  }

  /** Byte `i` of `a` is the first one that is not 0xff. */
  ghost predicate FirstBelowMax(a: bytes, i: nat) {
    i < |a| && a[i] != 0xff && forall c :: 0 <= c < i ==> a[c] == 0xff
  }

  /** A short successor: the key cut after its first byte below 0xff, raised, or longer by a 0xff. */
  method FindShortSucc(a: bytes) returns (r: bytes)
    ensures ShortSucc(a, r)
    ensures forall i: nat :: FirstBelowMax(a, i) ==> r == a[..i] + [a[i] + 1]
    ensures (forall c :: 0 <= c < |a| ==> a[c] == 0xff) ==> r == a + [0xff]
  {
    hide BytesCmp;
    for i := 0 to |a|
      invariant forall j :: 0 <= j < i ==> a[j] == 0xff
    {
      if a[i] != 0xff {
        r := a[..i] + [a[i] + 1];
        assert r[..i] == a[..i];
        LessAt(a, r, i);
        forall t | |t| < |r| ensures BytesCmp(a, t) != Less { NothingShorter(a, i, t); }
        assert FirstBelowMax(a, i) && forall k: nat :: FirstBelowMax(a, k) ==> k == i;
        return;
      }
    }
    r := a + [255];
    assert r[..|a|] == a[..|a|];
    LessAt(a, r, |a|);
    forall t | |t| < |r| ensures BytesCmp(a, t) != Less { NothingShorter(a, |a|, t); }
  }

  // ----- internal keys

  /** What `FindShortestSep` promises. */
  ghost predicate Separates(a: bytes, b: bytes, sep: bytes) {
    if a == b then sep == a
    else
      && BytesCmp(a, sep) == Less && (if b == a + [0] then sep == b else BytesCmp(sep, b) == Less)
      && forall d0 :: SmallerAt(a, b, d0) ==> SeparatorIs(a, b, d0, sep)
  }

  /** A separator of two internal keys, with the sequence number it is given. */
  ghost predicate SeparatesVersions(ka: bytes, sa: nat, kb: bytes, sep: bytes, s: nat) {
    Separates(ka, kb, sep) && s == if |sep| < |ka| then MAX_SEQUENCE_NUMBER else sa
  }

  lemma {:induction false} DecodeFixedBound(s: bytes)
    ensures DecodeFixed(s) < Pow256(|s|)
  {
    if s != [] {
      DecodeFixedBound(s[1..]);
    }
  }

  lemma ParsedSequenceFits(ikey: bytes)
    requires |ikey| >= U64_SPACE
    ensures ParseInternalKey(ikey).1 <= MAX_SEQUENCE_NUMBER
  {
    DecodeFixedBound(ikey[|ikey| - 8..]);
    assert Pow256(4) == 256 * Pow256(3) && Pow256(3) == 256 * Pow256(2) && Pow256(2) == 256 * Pow256(1);
    assert Pow256(8) == 256 * Pow256(7) && Pow256(7) == 256 * Pow256(6) && Pow256(6) == 256 * Pow256(5);
  }

  /** The separator as computed on internal keys. */
  method InternalShortestSep(a: bytes, b: bytes) returns (r: bytes)
    requires |a| >= U64_SPACE && |b| >= U64_SPACE
    requires var ka, kb := ParseInternalKey(a).2, ParseInternalKey(b).2;
             ka == kb || (BytesCmp(ka, kb) == Less && ka != [])
    ensures a == b ==> r == a
    ensures a != b ==>
              exists sep, s: Seq ::
                r == InternalKey(sep, s, Value)
                && SeparatesVersions(ParseInternalKey(a).2, ParseInternalKey(a).1, ParseInternalKey(b).2, sep, s)
  {
    if a == b {
      return a;
    }
    ParsedSequenceFits(a);
    var (_, seqa, keya) := ParseInternalKey(a);
    var (_, _, keyb) := ParseInternalKey(b);
    var sep := FindShortestSep(keya, keyb);
    var s := if |sep| < |keya| && BytesCmp(keya, sep) == Less then MAX_SEQUENCE_NUMBER else seqa;
    assert SeparatesVersions(keya, seqa, keyb, sep, s);
    r := InternalKey(sep, s, Value);
  }

  /**
    The internal separator is at or above its first key always, and below the second except exactly
    when the second user key is the first with a zero byte appended and the first's sequence number
    does not exceed the second's.
   */
  lemma InternalSeparatorExact(ka: bytes, sa: Seq, ta: Kind, kb: bytes, sb: Seq, tb: Kind, sep: bytes, s: Seq)
    requires CmpVersions(BytesCmp, ka, sa, kb, sb) == Less && SeparatesVersions(ka, sa, kb, sep, s)
    ensures var a, b, r := InternalKey(ka, sa, ta), InternalKey(kb, sb, tb), InternalKey(sep, s, Value);
      && CmpInternalKey(BytesCmp, a, r) != Greater
      && (CmpInternalKey(BytesCmp, r, b) == Less <==> !(kb == ka + [0] && sa <= sb))
  {
    DefaultOrderIsTotal();
    InternalKeysCompare(BytesCmp, ka, sa, ta, sep, s, Value);
    InternalKeysCompare(BytesCmp, sep, s, Value, kb, sb, tb);
    hide InternalKey, CmpInternalKey, BytesCmp;
    assert ka != ka + [0];
  }

  /** `InternalSeparatorExact` of the key the comparator returns for two encoded versions. */
  method SeparateVersions(ka: bytes, sa: Seq, ta: Kind, kb: bytes, sb: Seq, tb: Kind) returns (r: bytes)
    requires CmpVersions(BytesCmp, ka, sa, kb, sb) == Less && ka != []
    ensures |r| >= U64_SPACE
    ensures CmpInternalKey(BytesCmp, InternalKey(ka, sa, ta), r) != Greater
    ensures CmpInternalKey(BytesCmp, r, InternalKey(kb, sb, tb)) == Less <==> !(kb == ka + [0] && sa <= sb)
  {
    DefaultOrderIsTotal();
    InternalKeyRoundTrip(ka, sa, ta);
    InternalKeyRoundTrip(kb, sb, tb);
    hide InternalKey, CmpInternalKey, BytesCmp, ParseInternalKey;
    r := InternalShortestSep(InternalKey(ka, sa, ta), InternalKey(kb, sb, tb));
    ghost var sep, s: Seq :| r == InternalKey(sep, s, Value) && SeparatesVersions(ka, sa, kb, sep, s);
    InternalSeparatorExact(ka, sa, ta, kb, sb, tb, sep, s);
  }

  /** Whatever lies between `[1]` at 5 and `[1, 0]` at 7, the separator is not below the second. */
  lemma SeparatorReachesSecondKey(sep: bytes, s: Seq)
    requires SeparatesVersions([1], 5, [1, 0], sep, s)
    ensures CmpVersions(BytesCmp, [1], 5, [1, 0], 7) == Less
    ensures CmpInternalKey(BytesCmp, InternalKey(sep, s, Value), InternalKey([1, 0], 7, Value)) == Greater
  {
    LessAt([1], [1, 0], 1);
    assert [1, 0] == [1] + [0];
    DefaultOrderIsTotal();
    InternalKeysCompare(BytesCmp, sep, s, Value, [1, 0], 7, Value);
  }

  /** The successor of an internal key is above it, whatever tag its user key carries. */
  method InternalShortSucc(k: bytes, s: Seq, t: Kind) returns (r: bytes)
    ensures |r| >= U64_SPACE
    ensures forall s': Seq, t' :: CmpInternalKey(BytesCmp, InternalKey(k, s', t'), r) == Less
    ensures exists succ :: r == InternalKey(succ, s, Value) && ShortSucc(k, succ)
  {
    DefaultOrderIsTotal();
    InternalKeyRoundTrip(k, s, t);
    var (_, seqa, key) := ParseInternalKey(InternalKey(k, s, t));
    var succ := FindShortSucc(key);
    hide InternalKey, CmpInternalKey, BytesCmp;
    r := InternalKey(succ, seqa, Value);
    forall s': Seq, t' ensures CmpInternalKey(BytesCmp, InternalKey(k, s', t'), r) == Less {
      InternalKeysCompare(BytesCmp, k, s', t', succ, seqa, Value);
    }
  }
}
