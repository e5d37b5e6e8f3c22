/** With checksums on, damage to a log is noticed: nothing damaged is returned, and nothing behind it. */
module LogDamage {
  import opened Order
  import opened Codec
  import opened Log
  import opened LogProofs
  import Recovery

  /** The header of a physical record, with any checksum. */
  function Header(x: bv32, t: byte, n: nat): (r: bytes)
    ensures |r| == HEADER_SIZE
  {
    EncodeFixed(x as nat, 4) + EncodeFixed(n, 2) + [t]
  }

  function Physical(x: bv32, t: byte, data: bytes): (r: bytes)
    ensures |r| == HEADER_SIZE + |data|
  {
    Header(x, t, |data|) + data
  }

  lemma MaskUndoesUnmask(mc: bv32)
    ensures MaskCrc(UnmaskCrc(mc)) == mc
  {
  }

  lemma MaskedDiffer(c: bv32, d: bv32)
    ensures MaskCrc(c) == MaskCrc(d) <==> c == d
  {
    hide MaskCrc, UnmaskCrc;
    UnmaskUndoesMask(c);
    UnmaskUndoesMask(d);
  }

  /** Masking is a rotation and an addition. */
  lemma MaskRotates(c: bv32)
    ensures MaskCrc(c) == c.RotateRight(15) + 0xa282ead8
    ensures UnmaskCrc(c) == (c - 0xa282ead8).RotateLeft(15)
  {
  }

  lemma HeaderParts(x: bv32, t: byte, n: nat)
    ensures var h := Header(x, t, n); h[0..4] == EncodeFixed(x as nat, 4) && h[4..6] == EncodeFixed(n, 2) && h[6] == t
  {
    hide EncodeFixed;
  }

  lemma FragmentHeader(crc: Crc, t: byte, data: bytes)
    ensures Fragment(crc, t, data)[..HEADER_SIZE] == Header(MaskCrc(crc([t] + data)), t, |data|)
  {
    hide EncodeFixed, MaskCrc;
  }

  /** What the reader has in its buffer after reading a header. */
  ghost function HeadOf(src: bytes, s: ReaderState): bytes
    requires Reading(src, s)
  {
    var h := Min(HEADER_SIZE, |src| - s.pos);
    src[s.pos..s.pos + h] + s.scratch[h..]
  }

  /** Behind the padding, the reader finds the header and then what follows it. */
  lemma HeadReads(bs: nat, src: bytes, st: ReaderState, x: bv32, t: byte, n: nat, rest: bytes)
    requires Reading(src, st) && st.blkOff <= bs && n < MAX_FRAGMENT
    requires src[st.pos..] == Pad(bs, st.blkOff) + (Header(x, t, n) + rest)
    ensures var s := SkipPadding(bs, src, st);
      var head := HeadOf(src, s);
      && |src| == s.pos + HEADER_SIZE + |rest| && src[s.pos + HEADER_SIZE..] == rest
      && head[0..4] == EncodeFixed(x as nat, 4) && DecodeFixed(head[4..6]) == n && head[6] == t
  {
    hide DecodeFixed, EncodeFixed, Header, SkipPadding, Pad, StartOff;
    var s := SkipPadding(bs, src, st);
    SkipsPad(bs, src, st, Header(x, t, n) + rest);
    HeaderParts(x, t, n);
    var h, tail := Header(x, t, n), src[s.pos..];
    assert |src| - s.pos == |h| + |rest|;
    assert src[s.pos..s.pos + HEADER_SIZE] == tail[..HEADER_SIZE] == h;
    assert src[s.pos + HEADER_SIZE..] == tail[HEADER_SIZE..] == rest;
    assert HeadOf(src, s) == h;
    Fixed16RoundTrip(n);
  }

  lemma Accepted(crc: Crc, x: bv32, t: byte, data: bytes)
    ensures CheckIntegrity(crc, t, data, DecodeFixed(EncodeFixed(x as nat, 4))) <==> x == MaskCrc(crc([t] + data))
  {
    hide EncodeFixed, DecodeFixed, MaskCrc, UnmaskCrc;
    BackToBits(x);
    Fixed32RoundTrip(x as nat);
    UnmaskUndoesMask(crc([t] + data));
    MaskUndoesUnmask(x);
  }

  /** The reader's answer, once header and data are known. */
  lemma AnswerOf(crc: Crc, bs: nat, src: bytes, st: ReaderState, t: byte, n: nat, data: bytes)
    requires Reading(src, st) && st.blkOff <= bs && |data| <= n
    requires var s := SkipPadding(bs, src, st);
      && |src| >= s.pos + HEADER_SIZE + |data| && src[s.pos + HEADER_SIZE..s.pos + HEADER_SIZE + |data|] == data
      && (|data| == n || |src| == s.pos + HEADER_SIZE + |data|)
      && DecodeFixed(HeadOf(src, s)[4..6]) == n && HeadOf(src, s)[6] == t
    ensures var head := HeadOf(src, SkipPadding(bs, src, st));
      ReadPiece(crc, bs, true, src, st).0
      == if CheckIntegrity(crc, t, data, DecodeFixed(head[0..4])) then Got(t, data + Zeros(n - |data|))
         else Stop(Corruption)
  {
    hide DecodeFixed, CheckIntegrity, SkipPadding, Zeros;
  }

  /**
    A physical record is returned exactly if its checksum is that of its type and data; otherwise
    the reader stops with a corruption.
   */
  lemma PieceExact(crc: Crc, bs: nat, src: bytes, st: ReaderState, x: bv32, t: byte, data: bytes, rest: bytes)
    requires Reading(src, st) && st.blkOff <= bs && |data| < MAX_FRAGMENT
    requires src[st.pos..] == Pad(bs, st.blkOff) + (Physical(x, t, data) + rest)
    ensures ReadPiece(crc, bs, true, src, st).0
            == if x == MaskCrc(crc([t] + data)) then Got(t, data) else Stop(Corruption)
  {
    Regroup(Header(x, t, |data|), data, rest);
    hide DecodeFixed, EncodeFixed, CheckIntegrity, Header, SkipPadding, Pad, StartOff, MaskCrc;
    HeadReads(bs, src, st, x, t, |data|, data + rest);
    Accepted(crc, x, t, data);
    var s := SkipPadding(bs, src, st);
    var at := s.pos + HEADER_SIZE;
    assert src[at..at + |data|] == src[at..][..|data|] == data;
    hide ReadPiece;
    AnswerOf(crc, bs, src, st, t, |data|, data);
    assert data + Zeros(0) == data;
  }

  /** Data, or the type, that no longer fits the checksum written for it is refused. */
  lemma DamagedPiece(crc: Crc, bs: nat, src: bytes, st: ReaderState, t: byte, data: bytes, t': byte, data': bytes,
                     rest: bytes)
    requires Reading(src, st) && st.blkOff <= bs && |data'| == |data| < MAX_FRAGMENT
    requires crc([t'] + data') != crc([t] + data)
    requires src[st.pos..] == Pad(bs, st.blkOff) + (Fragment(crc, t, data)[..HEADER_SIZE - 1] + [t'] + data' + rest)
    ensures ReadPiece(crc, bs, true, src, st).0 == Stop(Corruption)
  {
    var x := MaskCrc(crc([t] + data));
    assert Fragment(crc, t, data)[..HEADER_SIZE - 1] + [t'] + data' == Physical(x, t', data') by {
      hide EncodeFixed, MaskCrc;
    }
    hide ReadPiece, Fragment, Physical, Pad, MaskCrc, UnmaskCrc;
    MaskedDiffer(crc([t] + data), crc([t'] + data'));
    PieceExact(crc, bs, src, st, x, t', data', rest);
  }

  /** A record torn off in its data at the end of the file is refused, unless the checksum happens to fit. */
  lemma TornPieceExact(crc: Crc, bs: nat, src: bytes, st: ReaderState, t: byte, data: bytes, d: nat)
    requires Reading(src, st) && st.blkOff <= bs && d < |data| < MAX_FRAGMENT
    requires src[st.pos..] == Pad(bs, st.blkOff) + (Fragment(crc, t, data)[..HEADER_SIZE] + data[..d])
    ensures ReadPiece(crc, bs, true, src, st).0
            == if crc([t] + data[..d]) == crc([t] + data) then Got(t, data[..d] + Zeros(|data| - d))
               else Stop(Corruption)
  {
    var x := MaskCrc(crc([t] + data));
    FragmentHeader(crc, t, data);
    hide DecodeFixed, EncodeFixed, CheckIntegrity, Header, SkipPadding, Pad, StartOff, MaskCrc, UnmaskCrc, Fragment;
    MaskedDiffer(crc([t] + data), crc([t] + data[..d]));
    HeadReads(bs, src, st, x, t, |data|, data[..d]);
    Accepted(crc, x, t, data[..d]);
    var s := SkipPadding(bs, src, st);
    var at := s.pos + HEADER_SIZE;
    assert src[at..at + d] == src[at..];
    hide ReadPiece, Zeros;
    AnswerOf(crc, bs, src, st, t, |data|, data[..d]);
  }

  /** What follows complete records and the first `m` fragments of another: a physical record that is not right. */
  ghost function DamagedLog(crc: Crc, bs: nat, rs: seq<bytes>, r: bytes, m: nat, x: bv32, t: byte, data: bytes,
                            rest: bytes): bytes
    requires GoodBlockSize(bs) && Incomplete(bs, EmitAll(crc, bs, 0, rs).1, |r|, m)
  {
    var e := EmitAll(crc, bs, 0, rs);
    e.0 + (FirstFragments(crc, bs, e.1, r, true, m, false)
           + (Pad(bs, if m == 0 then e.1 else bs) + (Physical(x, t, data) + rest)))
  }

  /**
    Reading a log with a damaged physical record, anywhere in a record and with anything behind it,
    returns exactly the records before, and then a corruption.
   */
  lemma DamagedLogReads(crc: Crc, bs: nat, rs: seq<bytes>, r: bytes, m: nat, x: bv32, t: byte, data: bytes, rest: bytes)
    requires GoodBlockSize(bs) && NonEmpty(rs) && Incomplete(bs, EmitAll(crc, bs, 0, rs).1, |r|, m)
    requires |data| < MAX_FRAGMENT && x != MaskCrc(crc([t] + data))
    ensures ReadLog(crc, bs, true, DamagedLog(crc, bs, rs, r, m, x, t, data, rest), START) == (rs, Corruption)
  {
    var e := EmitAll(crc, bs, 0, rs);
    var src := DamagedLog(crc, bs, rs, r, m, x, t, data, rest);
    var off := if m == 0 then e.1 else bs;
    var bad := Pad(bs, off) + (Physical(x, t, data) + rest);
    var tail := FirstFragments(crc, bs, e.1, r, true, m, false) + bad;
    assert src[0..] == e.0 + tail;
    hide EmitAll, FirstFragments, Pad, Physical, ReadOne, ReadPiece, MaskCrc, DamagedLog;
    var s := RecordsRead(crc, bs, true, src, START, rs, tail);
    var s1 := CutRecordContinues(crc, bs, true, src, s, r, true, m, [], bad);
    PieceExact(crc, bs, src, s1, x, t, data, rest);
    StopsThere(crc, bs, src, s1, [] + r[..Taken(bs, s.blkOff, |r|, m)], Corruption);
    StopsLog(crc, bs, src, s, Corruption);
    assert rs + [] == rs;
  }

  lemma StopsThere(crc: Crc, bs: nat, src: bytes, st: ReaderState, acc: bytes, why: ReadResult)
    requires Reading(src, st) && ReadPiece(crc, bs, true, src, st).0 == Stop(why)
    ensures ReadOne(crc, bs, true, src, st, acc).0 == why
  {
  }

  lemma StopsLog(crc: Crc, bs: nat, src: bytes, st: ReaderState, why: ReadResult)
    requires Reading(src, st) && ReadOne(crc, bs, true, src, st, []).0 == why && !why.Record?
    ensures ReadLog(crc, bs, true, src, st) == ([], why)
  {
  }

  /**
    A log that ends inside the data of a physical record returns exactly the records before, and
    then a corruption, unless the checksum of what is left happens to fit.
   */
  lemma TornLogReads(crc: Crc, bs: nat, rs: seq<bytes>, r: bytes, m: nat, t: byte, data: bytes, d: nat)
    requires GoodBlockSize(bs) && NonEmpty(rs) && Incomplete(bs, EmitAll(crc, bs, 0, rs).1, |r|, m)
    requires d < |data| < MAX_FRAGMENT && crc([t] + data[..d]) != crc([t] + data)
    ensures var e := EmitAll(crc, bs, 0, rs);
      var torn := Pad(bs, if m == 0 then e.1 else bs) + (Fragment(crc, t, data)[..HEADER_SIZE] + data[..d]);
      ReadLog(crc, bs, true, e.0 + (FirstFragments(crc, bs, e.1, r, true, m, false) + torn), START) == (rs, Corruption)
  {
    var e := EmitAll(crc, bs, 0, rs);
    var off := if m == 0 then e.1 else bs;
    var torn := Pad(bs, off) + (Fragment(crc, t, data)[..HEADER_SIZE] + data[..d]);
    var tail := FirstFragments(crc, bs, e.1, r, true, m, false) + torn;
    var src := e.0 + tail;
    assert src[0..] == e.0 + tail;
    hide EmitAll, FirstFragments, Pad, Fragment, ReadOne, ReadPiece;
    var s := RecordsRead(crc, bs, true, src, START, rs, tail);
    var s1 := CutRecordContinues(crc, bs, true, src, s, r, true, m, [], torn);
    TornPieceExact(crc, bs, src, s1, t, data, d);
    StopsThere(crc, bs, src, s1, [] + r[..Taken(bs, s.blkOff, |r|, m)], Corruption);
    StopsLog(crc, bs, src, s, Corruption);
    assert rs + [] == rs;
  }

  /** Recovery replays exactly the batches before the damage. */
  lemma DamagedLogReplays(crc: Crc, rs: seq<bytes>, bs: seq<Recovery.Logged>, r: bytes, m: nat, x: bv32, t: byte,
                          data: bytes, rest: bytes)
    requires NonEmpty(rs) && Recovery.EncodeAllOf(rs, bs)
    requires Incomplete(BLOCK_SIZE, EmitAll(crc, BLOCK_SIZE, 0, rs).1, |r|, m)
    requires |data| < MAX_FRAGMENT && x != MaskCrc(crc([t] + data))
    ensures Recovery.Replays(crc, DamagedLog(crc, BLOCK_SIZE, rs, r, m, x, t, data, rest), bs)
  {
    hide EmitAll, MaskCrc, ReadLog, DamagedLog, Recovery.EncodeAllOf;
    DamagedLogReads(crc, BLOCK_SIZE, rs, r, m, x, t, data, rest);
  }

  // ----- the types of fragments

  /** The types of the fragments that a record of `n` bytes is written in. */
  ghost function TypesFrom(bs: nat, off: nat, n: nat, first: bool): seq<byte>
    requires HEADER_SIZE < bs && off <= bs
    decreases n, if bs - off == HEADER_SIZE then 1 else 0
  {
    if n == 0 then []
    else
      var k := FragLen(bs, off, n);
      [FragType(first, k == n)] + TypesFrom(bs, StartOff(bs, off) + HEADER_SIZE + k, n - k, false)
  }

  /** The bytes at which the fragments of a record have their types. */
  lemma TypesWritten(crc: Crc, bs: nat, off: nat, r: bytes, first: bool)
    requires HEADER_SIZE < bs && off <= bs && r != []
    ensures var e, at := Emit(crc, bs, off, r, first).0, |Pad(bs, off)| + 6;
      at < |e| && e[at] == TypesFrom(bs, off, |r|, first)[0]
  {
    EmitStep(crc, bs, off, r, first);
    hide EncodeFixed, Emit, MaskCrc;
  }

  /** Either one fragment of type 1, or one of type 2, any number of type 3 and one of type 4. */
  lemma RecordTypes(bs: nat, off: nat, n: nat)
    requires HEADER_SIZE < bs && off <= bs && n > 0
    ensures var t := TypesFrom(bs, off, n, true);
      t == [1] || exists k :: t == [2] + Threes(k) + [4]
  {
    var k := FragLen(bs, off, n);
    if k < n {
      var m := LaterTypes(bs, StartOff(bs, off) + HEADER_SIZE + k, n - k);
      assert TypesFrom(bs, off, n, true) == [2] + Threes(m) + [4];
    }
  }

  ghost function Threes(k: nat): bytes {
    seq(k, _ => 3)
  }

  lemma {:induction false} LaterTypes(bs: nat, off: nat, n: nat) returns (m: nat)
    requires HEADER_SIZE < bs && off <= bs && n > 0
    ensures TypesFrom(bs, off, n, false) == Threes(m) + [4]
    decreases n, if bs - off == HEADER_SIZE then 1 else 0
  {
    var k := FragLen(bs, off, n);
    if k == n {
      m := 0;
      assert Threes(0) + [4] == [4];
    } else {
      var more := LaterTypes(bs, StartOff(bs, off) + HEADER_SIZE + k, n - k);
      m := more + 1;
      assert [3] + Threes(more) == Threes(m);
    }
  }

  /** From the start of a block, a record that does not fit fills the block. */
  lemma FillsBlock(crc: Crc, bs: nat, off: nat, r: bytes, first: bool)
    requires HEADER_SIZE < bs && (off == 0 || off == bs) && r != []
    ensures var e, room := Emit(crc, bs, off, r, first), bs - HEADER_SIZE;
      if |r| <= room then |e.0| == e.1 == |r| + HEADER_SIZE
      else var rest := Emit(crc, bs, bs, r[room..], false); |e.0| == bs + |rest.0| && e.1 == rest.1
  {
    hide Emit, Fragment;
    EmitStep(crc, bs, off, r, first);
    var n := FragLen(bs, off, |r|);
    assert |Pad(bs, off)| == 0 && StartOff(bs, off) == 0;
    if n == |r| {
      EmitNothing(crc, bs, HEADER_SIZE + n, false);
    }
  }

  ghost function Times(k: nat, d: nat): nat {
    k * d
  }

  lemma TimesStep(k: nat, d: nat)
    ensures Times(0, d) == 0 && Times(k + 1, d) == Times(k, d) + d
  {
  }

  /** So it takes as few physical records as can be: one more than the blocks that it fills with data. */
  lemma {:induction false} FewestFragments(crc: Crc, bs: nat, off: nat, r: bytes, first: bool, k: nat)
    requires HEADER_SIZE < bs && (off == 0 || off == bs)
    requires Times(k, bs - HEADER_SIZE) < |r| <= Times(k + 1, bs - HEADER_SIZE)
    ensures var e := Emit(crc, bs, off, r, first);
      |e.0| == |r| + Times(k + 1, HEADER_SIZE) && e.1 == |e.0| - Times(k, bs)
    decreases k
  {
    hide Emit, Times;
    var room := bs - HEADER_SIZE;
    FillsBlock(crc, bs, off, r, first);
    TimesStep(k, room);
    TimesStep(k, HEADER_SIZE);
    TimesStep(k, bs);
    if k > 0 {
      TimesStep(k - 1, room);
      TimesStep(k - 1, HEADER_SIZE);
      TimesStep(k - 1, bs);
      FewestFragments(crc, bs, bs, r[room..], false, k - 1);
    }
  }

  // ----- why reading stops

  /** The reader overflows exactly if it has read past its block, and ends exactly if nothing is left behind padding. */
  lemma StopsExactly(crc: Crc, bs: nat, checks: bool, src: bytes, st: ReaderState)
    requires Reading(src, st)
    ensures var p := ReadPiece(crc, bs, checks, src, st).0;
      && (p == Stop(Overflow) <==> bs < st.blkOff)
      && (p == Stop(Eof) <==>
            st.blkOff <= bs && |src| - st.pos <= (if bs - st.blkOff < 7 then bs - st.blkOff else 0))
      && (p == Stop(Corruption) ==> checks)
  {
    hide DecodeFixed, CheckIntegrity;
  }
}
