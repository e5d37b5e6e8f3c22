/** The integer encodings of the on-disk formats: base-128 varints and little-endian fixed-width integers. */
module Codec {
  import opened Order

  /** Seven bits per byte, least significant group first; the top bit says that more bytes follow. */
  function EncodeVar(n: nat): (r: bytes)
    ensures r != []
    decreases n
  {
    if n < 128 then [n] else [128 + n % 128] + EncodeVar(n / 128)
  }

  /** The value and the number of bytes read; (0, 0) on no input. */
  function DecodeVar(s: bytes): (r: (nat, nat))
    ensures r.1 <= |s|
    decreases s
  {
    if s == [] then (0, 0)
    else if s[0] < 128 then (s[0], 1)
    else
      var (n, used) := DecodeVar(s[1..]);
      (s[0] - 128 + 128 * n, used + 1)
  }

  lemma {:induction false} VarRoundTrip(n: nat, rest: bytes)
    ensures DecodeVar(EncodeVar(n) + rest) == (n, |EncodeVar(n)|)
    decreases n
  {
    var s := EncodeVar(n) + rest;
    if n >= 128 {
      VarRoundTrip(n / 128, rest);
      assert s[1..] == EncodeVar(n / 128) + rest;
    }
  }

  /** The low `width` bytes of `n`, least significant first; higher bytes are cut off as by a cast. */
  function EncodeFixed(n: nat, width: nat): (r: bytes)
    ensures |r| == width
  {
    if width == 0 then [] else [n % 256] + EncodeFixed(n / 256, width - 1)
  }

  function DecodeFixed(s: bytes): nat {
    if s == [] then 0 else s[0] + 256 * DecodeFixed(s[1..])
  }

  ghost function Pow256(width: nat): nat {
    if width == 0 then 1 else 256 * Pow256(width - 1)
  }

  /** Fixed-width encoding keeps every integer that fits, and reduces any other to its remainder. */
  lemma {:induction false} FixedRoundTrip(n: nat, width: nat)
    requires n < Pow256(width)
    ensures DecodeFixed(EncodeFixed(n, width)) == n
  {
    if width > 0 {
      FixedRoundTrip(n / 256, width - 1);
    }
  }

  const U32_LIMIT: nat := 0x1_0000_0000

  lemma Fixed32RoundTrip(n: nat)
    requires n < U32_LIMIT
    ensures DecodeFixed(EncodeFixed(n, 4)) == n
  {
    assert Pow256(4) == 256 * Pow256(3) && Pow256(3) == 256 * Pow256(2) && Pow256(2) == 256 * Pow256(1);
    FixedRoundTrip(n, 4);
  }

  /** Fixed 32-bit integers one after the other. */
  function EncodeAll(ns: seq<nat>): (r: bytes)
    ensures |r| == 4 * |ns|
  {
    if ns == [] then [] else EncodeAll(ns[..|ns| - 1]) + EncodeFixed(ns[|ns| - 1], 4)
  }

  lemma {:induction false} EncodeAllAt(ns: seq<nat>, j: nat)
    requires j < |ns|
    ensures EncodeAll(ns)[4 * j..4 * j + 4] == EncodeFixed(ns[j], 4)
  {
    var n := |ns| - 1;
    if j < n {
      EncodeAllAt(ns[..n], j);
      assert EncodeAll(ns)[4 * j..4 * j + 4] == EncodeAll(ns[..n])[4 * j..4 * j + 4];
    }
  }
}
