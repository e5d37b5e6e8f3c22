/** What is written to a log is what is read from it, also after it was cut short or continued. */
module LogProofs {
  import opened Order
  import opened Codec
  import opened Log

  // ----- one fragment

  lemma HeaderReads(crc: Crc, t: byte, data: bytes)
    requires |data| < MAX_FRAGMENT
    ensures var head := Fragment(crc, t, data)[..HEADER_SIZE];
      && head[6] == t && DecodeFixed(head[4..6]) == |data|
      && CheckIntegrity(crc, t, data, DecodeFixed(head[0..4]))
  {
    hide EncodeFixed, DecodeFixed, MaskCrc, CheckIntegrity;
    var x, y := EncodeFixed(MaskCrc(crc([t] + data)) as nat, 4), EncodeFixed(|data|, 2);
    var head := Fragment(crc, t, data)[..HEADER_SIZE];
    assert head == x + y + [t];
    assert head[0..4] == x && head[4..6] == y;
    Fixed16RoundTrip(|data|);
    ChecksumReads(crc, t, data);
  }

  lemma ChecksumReads(crc: Crc, t: byte, data: bytes)
    ensures CheckIntegrity(crc, t, data, DecodeFixed(EncodeFixed(MaskCrc(crc([t] + data)) as nat, 4)))
  {
    hide EncodeFixed, DecodeFixed, MaskCrc, UnmaskCrc;
    var c := MaskCrc(crc([t] + data));
    BackToBits(c);
    Fixed32RoundTrip(c as nat);
    UnmaskUndoesMask(crc([t] + data));
  }

  lemma Fixed16RoundTrip(n: nat)
    requires n < MAX_FRAGMENT
    ensures DecodeFixed(EncodeFixed(n, 2)) == n
  {
    assert Pow256(2) == 256 * Pow256(1);
    FixedRoundTrip(n, 2);
  }

  lemma BackToBits(c: bv32)
    ensures c as nat < U32_LIMIT && (c as nat) as bv32 == c
  {
  }

  lemma SkipsPad(bs: nat, src: bytes, st: ReaderState, rest: bytes)
    requires Reading(src, st) && st.blkOff <= bs && src[st.pos..] == Pad(bs, st.blkOff) + rest
    ensures var s := SkipPadding(bs, src, st);
      s.blkOff == StartOff(bs, st.blkOff) && src[s.pos..] == rest
  {
    assert |src| - st.pos == |Pad(bs, st.blkOff)| + |rest|;
  }

  lemma FragmentParts(crc: Crc, t: byte, data: bytes, s: bytes, rest: bytes)
    requires s == Fragment(crc, t, data) + rest
    ensures |s| >= HEADER_SIZE + |data|
    ensures s[..HEADER_SIZE] == Fragment(crc, t, data)[..HEADER_SIZE]
    ensures s[HEADER_SIZE..HEADER_SIZE + |data|] == data
    ensures s[HEADER_SIZE + |data|..] == rest
  {
  }

  /** The reader, at the same fill of the block as the writer was, gets back the fragment. */
  lemma PieceReads(crc: Crc, bs: nat, checks: bool, src: bytes, st: ReaderState, t: byte, data: bytes, rest: bytes)
    requires Reading(src, st) && st.blkOff <= bs && |data| < MAX_FRAGMENT
    requires src[st.pos..] == Pad(bs, st.blkOff) + (Fragment(crc, t, data) + rest)
    ensures var (piece, s) := ReadPiece(crc, bs, checks, src, st);
      && piece == Got(t, data) && s.blkOff == StartOff(bs, st.blkOff) + HEADER_SIZE + |data|
      && src[s.pos..] == rest
  {
    hide DecodeFixed, CheckIntegrity, Fragment, SkipPadding, Pad, StartOff;
    var s := SkipPadding(bs, src, st);
    SkipsPad(bs, src, st, Fragment(crc, t, data) + rest);
    var tail := src[s.pos..];
    FragmentParts(crc, t, data, tail, rest);
    HeaderReads(crc, t, data);
    assert src[s.pos..s.pos + HEADER_SIZE] == tail[..HEADER_SIZE];
    assert src[s.pos + HEADER_SIZE..s.pos + HEADER_SIZE + |data|] == tail[HEADER_SIZE..HEADER_SIZE + |data|];
    assert src[s.pos + HEADER_SIZE + |data|..] == tail[HEADER_SIZE + |data|..];
    assert src[s.pos..s.pos + HEADER_SIZE] + s.scratch[HEADER_SIZE..] == src[s.pos..s.pos + HEADER_SIZE];
    assert data + Zeros(0) == data;
  }

  // ----- whole records

  /** The reader reassembles a record from its fragments, wherever in a block it starts. */
  lemma {:induction false} RecordReads(crc: Crc, bs: nat, checks: bool, src: bytes, st: ReaderState, r: bytes,
                                       first: bool, acc: bytes, rest: bytes)
    requires GoodBlockSize(bs) && Reading(src, st) && st.blkOff <= bs && r != []
    requires src[st.pos..] == Emit(crc, bs, st.blkOff, r, first).0 + rest
    ensures var (res, s) := ReadOne(crc, bs, checks, src, st, acc);
      && res == Record(acc + r) && s.blkOff == Emit(crc, bs, st.blkOff, r, first).1
      && src[s.pos..] == rest
    decreases |r|, if bs - st.blkOff == HEADER_SIZE then 1 else 0
  {
    hide Emit, ReadPiece, Fragment, Pad;
    EmitStep(crc, bs, st.blkOff, r, first);
    var n := FragLen(bs, st.blkOff, |r|);
    var off := StartOff(bs, st.blkOff) + HEADER_SIZE + n;
    var t, tail := FragType(first, n == |r|), Emit(crc, bs, off, r[n..], false).0;
    Regroup(Pad(bs, st.blkOff), Fragment(crc, t, r[..n]), tail);
    Regroup(Pad(bs, st.blkOff), Fragment(crc, t, r[..n]) + tail, rest);
    Regroup(Fragment(crc, t, r[..n]), tail, rest);
    PieceReads(crc, bs, checks, src, st, t, r[..n], tail + rest);
    var s := ReadPiece(crc, bs, checks, src, st).1;
    if n == |r| {
      EmitNothing(crc, bs, off, false);
      assert r[..n] == r && r[n..] == [] && tail + rest == rest;
    } else {
      RecordReads(crc, bs, checks, src, s, r[n..], false, acc + r[..n], rest);
      assert (acc + r[..n]) + r[n..] == acc + r;
    }
  }

  /** Repeated reading: the records returned, and what ended it. */
  ghost function ReadLog(crc: Crc, bs: nat, checks: bool, src: bytes, st: ReaderState): (seq<bytes>, ReadResult)
    requires Reading(src, st)
    decreases |src| - st.pos
  {
    var (res, s) := ReadOne(crc, bs, checks, src, st, []);
    match res
    case Record(data) =>
      var (more, end) := ReadLog(crc, bs, checks, src, s);
      ([data] + more, end)
    case _ => ([], res)
  }

  ghost predicate NonEmpty(rs: seq<bytes>) {
    forall i :: 0 <= i < |rs| ==> rs[i] != []
  }

  /** Reading a run of records leads to whatever follows them. */
  lemma {:induction false} RecordsRead(crc: Crc, bs: nat, checks: bool, src: bytes, st: ReaderState, rs: seq<bytes>,
                                       rest: bytes)
    returns (s: ReaderState)
    requires GoodBlockSize(bs) && Reading(src, st) && st.blkOff <= bs && NonEmpty(rs)
    requires src[st.pos..] == EmitAll(crc, bs, st.blkOff, rs).0 + rest
    ensures Reading(src, s) && s.blkOff == EmitAll(crc, bs, st.blkOff, rs).1 && src[s.pos..] == rest
    ensures var (more, end) := ReadLog(crc, bs, checks, src, s);
      ReadLog(crc, bs, checks, src, st) == (rs + more, end)
    decreases rs
  {
    hide Emit, ReadOne, EmitAll, ReadLog;
    if rs == [] {
      s := st;
      EmitNoRecords(crc, bs, st.blkOff);
      assert [] + rest == rest && rs + ReadLog(crc, bs, checks, src, s).0 == ReadLog(crc, bs, checks, src, s).0;
    } else {
      var e := Emit(crc, bs, st.blkOff, rs[0], true);
      var tail := EmitAll(crc, bs, e.1, rs[1..]).0;
      EmitAllStep(crc, bs, st.blkOff, rs);
      Regroup(e.0, tail, rest);
      RecordReads(crc, bs, checks, src, st, rs[0], true, [], tail + rest);
      ReadLogStep(crc, bs, checks, src, st, rs[0]);
      var s1 := ReadOne(crc, bs, checks, src, st, []).1;
      s := RecordsRead(crc, bs, checks, src, s1, rs[1..], rest);
      assert [rs[0]] + (rs[1..] + ReadLog(crc, bs, checks, src, s).0) == rs + ReadLog(crc, bs, checks, src, s).0;
    }
  }

  lemma EmitNoRecords(crc: Crc, bs: nat, off: nat)
    requires HEADER_SIZE < bs && off <= bs
    ensures EmitAll(crc, bs, off, []) == ([], off)
  {
  }

  lemma EmitAllStep(crc: Crc, bs: nat, off: nat, rs: seq<bytes>)
    requires HEADER_SIZE < bs && off <= bs && rs != []
    ensures var e := Emit(crc, bs, off, rs[0], true);
      var rest := EmitAll(crc, bs, e.1, rs[1..]);
      EmitAll(crc, bs, off, rs) == (e.0 + rest.0, rest.1)
  {
  }

  lemma ReadLogStep(crc: Crc, bs: nat, checks: bool, src: bytes, st: ReaderState, data: bytes)
    requires Reading(src, st) && ReadOne(crc, bs, checks, src, st, []).0 == Record([] + data)
    ensures var s := ReadOne(crc, bs, checks, src, st, []).1;
      var (more, end) := ReadLog(crc, bs, checks, src, s);
      ReadLog(crc, bs, checks, src, st) == ([data] + more, end)
  {
    assert [] + data == data;
  }

  const START := ReaderState(0, 0, Zeros(HEADER_SIZE))

  /**
    A log reads back as exactly the records written to it, for every block size and with or without checksum
    verification.
   */
  lemma LogRoundTrip(crc: Crc, bs: nat, checks: bool, rs: seq<bytes>)
    requires GoodBlockSize(bs) && NonEmpty(rs)
    ensures var src := EmitAll(crc, bs, 0, rs).0;
      ReadLog(crc, bs, checks, src, START) == (rs, Eof)
  {
    var src := EmitAll(crc, bs, 0, rs).0;
    assert src[0..] == src + [];
    var s := RecordsRead(crc, bs, checks, src, START, rs, []);
    NothingLeft(crc, bs, checks, src, s, [], false);
    assert rs + [] == rs;
  }

  /** At the end of the file, possibly behind padding, there is nothing to read. */
  lemma NothingLeft(crc: Crc, bs: nat, checks: bool, src: bytes, st: ReaderState, acc: bytes, padded: bool)
    requires Reading(src, st) && st.blkOff <= bs
    requires src[st.pos..] == if padded then Pad(bs, st.blkOff) else []
    ensures ReadOne(crc, bs, checks, src, st, acc).0 == Eof
  {
    assert |src| - st.pos == |if padded then Pad(bs, st.blkOff) else []|;
  }

  // ----- a log cut short

  /** A record of `n` bytes, started at fill `off`, is not complete after `m` fragments. */
  predicate Incomplete(bs: nat, off: nat, n: nat, m: nat)
    requires HEADER_SIZE < bs && off <= bs
    decreases m
  {
    m == 0 || (FragLen(bs, off, n) < n &&
               Incomplete(bs, StartOff(bs, off) + HEADER_SIZE + FragLen(bs, off, n), n - FragLen(bs, off, n), m - 1))
  }

  /** The first `m` fragments of a record, and the padding in front of the next one if `padded`. */
  function FirstFragments(crc: Crc, bs: nat, off: nat, r: bytes, first: bool, m: nat, padded: bool): bytes
    requires HEADER_SIZE < bs && off <= bs && Incomplete(bs, off, |r|, m)
    decreases m
  {
    if m == 0 then if padded then Pad(bs, off) else []
    else
      var n := FragLen(bs, off, |r|);
      Pad(bs, off) + (Fragment(crc, FragType(first, false), r[..n])
                      + FirstFragments(crc, bs, StartOff(bs, off) + HEADER_SIZE + n, r[n..], false, m - 1, padded))
  }

  /** Cutting after some of a record's fragments cuts what the writer emits for it. */
  lemma {:induction false} FirstFragmentsPrefix(crc: Crc, bs: nat, off: nat, r: bytes, first: bool, m: nat,
                                                padded: bool)
    requires HEADER_SIZE < bs && off <= bs && r != [] && Incomplete(bs, off, |r|, m)
    ensures FirstFragments(crc, bs, off, r, first, m, padded) <= Emit(crc, bs, off, r, first).0
    decreases m
  {
    hide Emit, Fragment, Pad;
    EmitStep(crc, bs, off, r, first);
    if m > 0 {
      var n := FragLen(bs, off, |r|);
      FirstFragmentsPrefix(crc, bs, StartOff(bs, off) + HEADER_SIZE + n, r[n..], false, m - 1, padded);
    }
  }

  lemma ReadOneContinues(crc: Crc, bs: nat, checks: bool, src: bytes, st: ReaderState, acc: bytes)
    requires Reading(src, st)
    requires var p := ReadPiece(crc, bs, checks, src, st).0; p.Got? && p.typ != FULL && p.typ != LAST
    ensures var (p, s) := ReadPiece(crc, bs, checks, src, st);
      ReadOne(crc, bs, checks, src, st, acc) == ReadOne(crc, bs, checks, src, s, acc + p.data)
  {
  }

  /** An incomplete record is not returned: the reader runs into the end of the file. */
  lemma {:induction false} CutRecordReadsEof(crc: Crc, bs: nat, checks: bool, src: bytes, st: ReaderState,
                                             r: bytes, first: bool, m: nat, padded: bool, acc: bytes)
    requires GoodBlockSize(bs) && Reading(src, st) && st.blkOff <= bs && Incomplete(bs, st.blkOff, |r|, m)
    requires src[st.pos..] == FirstFragments(crc, bs, st.blkOff, r, first, m, padded)
    ensures ReadOne(crc, bs, checks, src, st, acc).0 == Eof
    decreases m
  {
    hide ReadOne, ReadPiece, Fragment, Pad;
    if m == 0 {
      NothingLeft(crc, bs, checks, src, st, acc, padded);
    } else {
      var n := FragLen(bs, st.blkOff, |r|);
      var off := StartOff(bs, st.blkOff) + HEADER_SIZE + n;
      var tail := FirstFragments(crc, bs, off, r[n..], false, m - 1, padded);
      PieceReads(crc, bs, checks, src, st, FragType(first, false), r[..n], tail);
      ReadOneContinues(crc, bs, checks, src, st, acc);
      var s := ReadPiece(crc, bs, checks, src, st).1;
      CutRecordReadsEof(crc, bs, checks, src, s, r[n..], false, m - 1, padded, acc + r[..n]);
    }
  }

  /** A log cut at any boundary between physical records reads back as its complete records, then as ended. */
  lemma CutLogReads(crc: Crc, bs: nat, checks: bool, rs: seq<bytes>, r: bytes, m: nat, padded: bool)
    requires GoodBlockSize(bs) && NonEmpty(rs) && Incomplete(bs, EmitAll(crc, bs, 0, rs).1, |r|, m)
    ensures var e := EmitAll(crc, bs, 0, rs);
      ReadLog(crc, bs, checks, e.0 + FirstFragments(crc, bs, e.1, r, true, m, padded), START) == (rs, Eof)
  {
    var e := EmitAll(crc, bs, 0, rs);
    var cut := FirstFragments(crc, bs, e.1, r, true, m, padded);
    var src := e.0 + cut;
    assert src[0..] == e.0 + cut;
    var s := RecordsRead(crc, bs, checks, src, START, rs, cut);
    CutRecordReadsEof(crc, bs, checks, src, s, r, true, m, padded, []);
    assert rs + [] == rs;
  }

  // ----- a log continued

  lemma {:induction false} EmitAllAppends(crc: Crc, bs: nat, off: nat, rs: seq<bytes>, more: seq<bytes>)
    requires HEADER_SIZE < bs && off <= bs
    ensures var e := EmitAll(crc, bs, off, rs);
      var e' := EmitAll(crc, bs, e.1, more);
      EmitAll(crc, bs, off, rs + more) == (e.0 + e'.0, e'.1)
    decreases rs
  {
    hide Emit;
    if rs == [] {
      assert rs + more == more && [] + EmitAll(crc, bs, off, more).0 == EmitAll(crc, bs, off, more).0;
    } else {
      var e := Emit(crc, bs, off, rs[0], true);
      EmitAllAppends(crc, bs, e.1, rs[1..], more);
      assert (rs + more)[1..] == rs[1..] + more;
      var mid := EmitAll(crc, bs, e.1, rs[1..]);
      Regroup(e.0, mid.0, EmitAll(crc, bs, mid.1, more).0);
    }
  }

  /** The writer's offset is the length of what it wrote, up to whole blocks. */
  lemma {:induction false} EmitKeepsPhase(crc: Crc, off: nat, r: bytes, first: bool)
    requires off <= BLOCK_SIZE
    ensures var e := Emit(crc, BLOCK_SIZE, off, r, first);
      (off + |e.0|) % BLOCK_SIZE == e.1 % BLOCK_SIZE
    decreases |r|, if BLOCK_SIZE - off == HEADER_SIZE then 1 else 0
  {
    hide Emit, Fragment;
    if r == [] {
      EmitNothing(crc, BLOCK_SIZE, off, first);
    } else {
      EmitStep(crc, BLOCK_SIZE, off, r, first);
      var n := FragLen(BLOCK_SIZE, off, |r|);
      var off' := StartOff(BLOCK_SIZE, off) + HEADER_SIZE + n;
      EmitKeepsPhase(crc, off', r[n..], false);
      WholeBlock(off' + |Emit(crc, BLOCK_SIZE, off', r[n..], false).0|);
    }
  }

  lemma WholeBlock(x: nat)
    ensures (BLOCK_SIZE + x) % BLOCK_SIZE == x % BLOCK_SIZE
  {
  }

  /** What is left over does not depend on the number of whole blocks before. */
  lemma LeftOver(x: nat, q: nat, r: nat)
    requires x == BLOCK_SIZE * q + r && r < BLOCK_SIZE
    ensures x % BLOCK_SIZE == r
  {
  }

  lemma SamePhase(a: nat, b: nat, x: nat)
    requires a % BLOCK_SIZE == b % BLOCK_SIZE
    ensures (a + x) % BLOCK_SIZE == (b + x) % BLOCK_SIZE
  {
    var rest := a % BLOCK_SIZE + x;
    LeftOver(a + x, a / BLOCK_SIZE + rest / BLOCK_SIZE, rest % BLOCK_SIZE);
    LeftOver(b + x, b / BLOCK_SIZE + rest / BLOCK_SIZE, rest % BLOCK_SIZE);
  }

  lemma {:induction false} EmitAllKeepsPhase(crc: Crc, off: nat, rs: seq<bytes>)
    requires off <= BLOCK_SIZE
    ensures var e := EmitAll(crc, BLOCK_SIZE, off, rs);
      (off + |e.0|) % BLOCK_SIZE == e.1 % BLOCK_SIZE
    decreases rs
  {
    hide Emit, EmitAll;
    if rs == [] {
      EmitNoRecords(crc, BLOCK_SIZE, off);
    } else {
      var e := Emit(crc, BLOCK_SIZE, off, rs[0], true);
      EmitAllStep(crc, BLOCK_SIZE, off, rs);
      EmitKeepsPhase(crc, off, rs[0], true);
      EmitAllKeepsPhase(crc, e.1, rs[1..]);
      SamePhase(off + |e.0|, e.1, |EmitAll(crc, BLOCK_SIZE, e.1, rs[1..]).0|);
    }
  }

  /** A full block and an empty one are continued alike. */
  lemma {:induction false} FullBlockLikeEmpty(crc: Crc, bs: nat, rs: seq<bytes>)
    requires HEADER_SIZE < bs
    ensures EmitAll(crc, bs, bs, rs).0 == EmitAll(crc, bs, 0, rs).0
    decreases rs
  {
    hide Emit, EmitAll, Fragment;
    if rs == [] {
      EmitNoRecords(crc, bs, bs);
      EmitNoRecords(crc, bs, 0);
    } else {
      EmitAllStep(crc, bs, bs, rs);
      EmitAllStep(crc, bs, 0, rs);
      if rs[0] == [] {
        EmitNothing(crc, bs, bs, true);
        EmitNothing(crc, bs, 0, true);
        FullBlockLikeEmpty(crc, bs, rs[1..]);
      } else {
        EmitStep(crc, bs, bs, rs[0], true);
        EmitStep(crc, bs, 0, rs[0], true);
        assert Pad(bs, bs) == [] == Pad(bs, 0);
      }
    }
  }

  /** Reopening a log at its current length and writing on gives the same bytes as never having closed it. */
  lemma ReopenedLogContinues(crc: Crc, rs: seq<bytes>, more: seq<bytes>)
    ensures var log := EmitAll(crc, BLOCK_SIZE, 0, rs).0;
      log + EmitAll(crc, BLOCK_SIZE, |log| % BLOCK_SIZE, more).0 == EmitAll(crc, BLOCK_SIZE, 0, rs + more).0
  {
    hide Emit, EmitAll;
    var e := EmitAll(crc, BLOCK_SIZE, 0, rs);
    EmitAllAppends(crc, BLOCK_SIZE, 0, rs, more);
    EmitAllKeepsPhase(crc, 0, rs);
    if e.1 == BLOCK_SIZE {
      FullBlockLikeEmpty(crc, BLOCK_SIZE, more);
    }
  }

  // ----- a cut log continued

  /** The bytes of a record in its first `m` fragments. */
  function Taken(bs: nat, off: nat, n: nat, m: nat): (x: nat)
    requires HEADER_SIZE < bs && off <= bs && Incomplete(bs, off, n, m)
    ensures x <= n
    decreases m
  {
    if m == 0 then 0
    else
      var k := FragLen(bs, off, n);
      k + Taken(bs, StartOff(bs, off) + HEADER_SIZE + k, n - k, m - 1)
  }

  /** Past the fragments of an incomplete record, the reader goes on collecting. */
  lemma {:induction false} CutRecordContinues(crc: Crc, bs: nat, checks: bool, src: bytes, st: ReaderState,
                                              r: bytes, first: bool, m: nat, acc: bytes, rest: bytes)
    returns (s: ReaderState)
    requires GoodBlockSize(bs) && Reading(src, st) && st.blkOff <= bs && Incomplete(bs, st.blkOff, |r|, m)
    requires src[st.pos..] == FirstFragments(crc, bs, st.blkOff, r, first, m, false) + rest
    ensures Reading(src, s) && src[s.pos..] == rest && s.blkOff == if m == 0 then st.blkOff else bs
    ensures ReadOne(crc, bs, checks, src, st, acc)
            == ReadOne(crc, bs, checks, src, s, acc + r[..Taken(bs, st.blkOff, |r|, m)])
    decreases m
  {
    hide ReadOne, ReadPiece, Fragment, Pad, FirstFragments;
    if m == 0 {
      s := st;
      NoFragments(crc, bs, st.blkOff, r, first);
      CutNothing(acc, r, rest);
    } else {
      var n := FragLen(bs, st.blkOff, |r|);
      var s1 := FragmentContinues(crc, bs, checks, src, st, r, first, m, acc, rest);
      s := CutRecordContinues(crc, bs, checks, src, s1, r[n..], false, m - 1, acc + r[..n], rest);
      CutTwice(acc, r, n, Taken(bs, bs, |r| - n, m - 1));
    }
  }

  /** The first of the fragments is read, and the reader goes on collecting behind it. */
  lemma FragmentContinues(crc: Crc, bs: nat, checks: bool, src: bytes, st: ReaderState, r: bytes, first: bool, m: nat,
                          acc: bytes, rest: bytes)
    returns (s: ReaderState)
    requires GoodBlockSize(bs) && Reading(src, st) && st.blkOff <= bs && m > 0 && Incomplete(bs, st.blkOff, |r|, m)
    requires src[st.pos..] == FirstFragments(crc, bs, st.blkOff, r, first, m, false) + rest
    ensures var n := FragLen(bs, st.blkOff, |r|);
      && Incomplete(bs, bs, |r| - n, m - 1) && Reading(src, s) && s.blkOff == bs
      && src[s.pos..] == FirstFragments(crc, bs, bs, r[n..], false, m - 1, false) + rest
      && ReadOne(crc, bs, checks, src, st, acc) == ReadOne(crc, bs, checks, src, s, acc + r[..n])
  {
    hide ReadOne, ReadPiece, Fragment, Pad, FirstFragments;
    var n := FragLen(bs, st.blkOff, |r|);
    FirstFragmentsStep(crc, bs, st.blkOff, r, first, m);
    var tail := FirstFragments(crc, bs, bs, r[n..], false, m - 1, false);
    var fragment := Fragment(crc, FragType(first, false), r[..n]);
    Regroup(Pad(bs, st.blkOff), fragment + tail, rest);
    Regroup(fragment, tail, rest);
    PieceReads(crc, bs, checks, src, st, FragType(first, false), r[..n], tail + rest);
    ReadOneContinues(crc, bs, checks, src, st, acc);
    s := ReadPiece(crc, bs, checks, src, st).1;
  }

  lemma NoFragments(crc: Crc, bs: nat, off: nat, r: bytes, first: bool)
    requires HEADER_SIZE < bs && off <= bs
    ensures FirstFragments(crc, bs, off, r, first, 0, false) == []
  {
  }

  lemma FirstFragmentsStep(crc: Crc, bs: nat, off: nat, r: bytes, first: bool, m: nat)
    requires HEADER_SIZE < bs && off <= bs && m > 0 && Incomplete(bs, off, |r|, m)
    ensures var n := FragLen(bs, off, |r|);
            && StartOff(bs, off) + HEADER_SIZE + n == bs && Incomplete(bs, bs, |r| - n, m - 1)
            && FirstFragments(crc, bs, off, r, first, m, false) ==
               Pad(bs, off) + (Fragment(crc, FragType(first, false), r[..n])
                   + FirstFragments(crc, bs, bs, r[n..], false, m - 1, false))
  {
    hide Fragment, Pad;
  }

  lemma CutNothing(acc: bytes, r: bytes, rest: bytes)
    ensures [] + rest == rest && acc + r[..0] == acc
  {
  }

  lemma CutTwice(acc: bytes, r: bytes, n: nat, x: nat)
    requires n + x <= |r|
    ensures acc + r[..n] + r[n..][..x] == acc + r[..n + x]
  {
  }

  lemma {:induction false} CutFillsBlock(crc: Crc, off: nat, r: bytes, first: bool, m: nat)
    requires off <= BLOCK_SIZE && m > 0 && Incomplete(BLOCK_SIZE, off, |r|, m)
    ensures (off + |FirstFragments(crc, BLOCK_SIZE, off, r, first, m, false)|) % BLOCK_SIZE == 0
    decreases m
  {
    hide Fragment;
    var n := FragLen(BLOCK_SIZE, off, |r|);
    var off' := StartOff(BLOCK_SIZE, off) + HEADER_SIZE + n;
    var tail := FirstFragments(crc, BLOCK_SIZE, off', r[n..], false, m - 1, false);
    assert off' == BLOCK_SIZE;
    if m > 1 {
      CutFillsBlock(crc, off', r[n..], false, m - 1);
    }
    assert (BLOCK_SIZE + |tail|) % BLOCK_SIZE == 0;
    WholeBlock(BLOCK_SIZE + |tail|);
  }

  /**
    A log that was cut inside a record and is then written on: the reader glues what is left of the
    cut record to the next one. The new record is read back just when none of the old one's bytes
    were left.
   */
  lemma CutLogContinued(crc: Crc, rs: seq<bytes>, r: bytes, m: nat, next: bytes)
    requires NonEmpty(rs) && next != [] && Incomplete(BLOCK_SIZE, EmitAll(crc, BLOCK_SIZE, 0, rs).1, |r|, m)
    ensures var e := EmitAll(crc, BLOCK_SIZE, 0, rs);
            var log := e.0 + FirstFragments(crc, BLOCK_SIZE, e.1, r, true, m, false);
            var x := Taken(BLOCK_SIZE, e.1, |r|, m);
            var more := Emit(crc, BLOCK_SIZE, |log| % BLOCK_SIZE, next, true).0;
            var read := ReadLog(crc, BLOCK_SIZE, true, log + more, START);
            read == (rs + [r[..x] + next], Eof) && (read.0 == rs + [next] <==> x == 0)
  {
    hide Emit, EmitAll, ReadOne, FirstFragments, Incomplete, Taken, ReadLog;
    var e := EmitAll(crc, BLOCK_SIZE, 0, rs);
    var cut := FirstFragments(crc, BLOCK_SIZE, e.1, r, true, m, false);
    var x := Taken(BLOCK_SIZE, e.1, |r|, m);
    var log := e.0 + cut;
    var more := Emit(crc, BLOCK_SIZE, |log| % BLOCK_SIZE, next, true).0;
    var src := log + more;
    assert src[0..] == e.0 + (cut + more);
    var s := RecordsRead(crc, BLOCK_SIZE, true, src, START, rs, cut + more);
    var s1 := CutRecordContinues(crc, BLOCK_SIZE, true, src, s, r, true, m, [], more);
    ContinuesAtFill(crc, rs, r, m, next);
    assert more + [] == more;
    RecordReads(crc, BLOCK_SIZE, true, src, s1, next, true, [] + r[..x], []);
    assert [] + r[..x] + next == [] + (r[..x] + next);
    ReadLogStep(crc, BLOCK_SIZE, true, src, s, r[..x] + next);
    var s2 := ReadOne(crc, BLOCK_SIZE, true, src, s, []).1;
    EndsHere(crc, src, s2);
    assert [r[..x] + next] + [] == [r[..x] + next];
    SameLast(rs, r[..x], next);
  }

  lemma EndsHere(crc: Crc, src: bytes, s: ReaderState)
    requires Reading(src, s) && s.blkOff <= BLOCK_SIZE && src[s.pos..] == []
    ensures ReadLog(crc, BLOCK_SIZE, true, src, s) == ([], Eof)
  {
    NothingLeft(crc, BLOCK_SIZE, true, src, s, [], false);
  }

  lemma SameLast(rs: seq<bytes>, a: bytes, b: bytes)
    ensures rs + [a + b] == rs + [b] <==> |a| == 0
  {
    assert (rs + [a + b])[|rs|] == a + b && (rs + [b])[|rs|] == b;
    if |a| == 0 {
      assert a + b == b;
    }
  }

  /** The writer opened at the end of a cut log writes as if it had counted on. */
  lemma ContinuesAtFill(crc: Crc, rs: seq<bytes>, r: bytes, m: nat, next: bytes)
    requires Incomplete(BLOCK_SIZE, EmitAll(crc, BLOCK_SIZE, 0, rs).1, |r|, m) && next != []
    ensures var e := EmitAll(crc, BLOCK_SIZE, 0, rs);
            var log := e.0 + FirstFragments(crc, BLOCK_SIZE, e.1, r, true, m, false);
            Emit(crc, BLOCK_SIZE, |log| % BLOCK_SIZE, next, true).0
                == Emit(crc, BLOCK_SIZE, if m == 0 then e.1 else BLOCK_SIZE, next, true).0
  {
    hide Emit, EmitAll, FirstFragments, Incomplete;
    PhaseOfCut(crc, rs, r, m);
    FullStartsLikeEmpty(crc, next);
  }

  lemma PhaseOfCut(crc: Crc, rs: seq<bytes>, r: bytes, m: nat)
    requires Incomplete(BLOCK_SIZE, EmitAll(crc, BLOCK_SIZE, 0, rs).1, |r|, m)
    ensures var e := EmitAll(crc, BLOCK_SIZE, 0, rs);
            |e.0 + FirstFragments(crc, BLOCK_SIZE, e.1, r, true, m, false)| % BLOCK_SIZE
            == if m == 0 then e.1 % BLOCK_SIZE else 0
  {
    hide Emit, EmitAll, Incomplete;
    var e := EmitAll(crc, BLOCK_SIZE, 0, rs);
    EmitAllKeepsPhase(crc, 0, rs);
    if m > 0 {
      CutFillsBlock(crc, e.1, r, true, m);
      hide FirstFragments;
      SamePhase(e.1, |e.0|, |FirstFragments(crc, BLOCK_SIZE, e.1, r, true, m, false)|);
    }
  }

  lemma FullStartsLikeEmpty(crc: Crc, r: bytes)
    requires r != []
    ensures Emit(crc, BLOCK_SIZE, BLOCK_SIZE, r, true) == Emit(crc, BLOCK_SIZE, 0, r, true)
  {
    hide Emit, Fragment;
    EmitStep(crc, BLOCK_SIZE, BLOCK_SIZE, r, true);
    EmitStep(crc, BLOCK_SIZE, 0, r, true);
    assert Pad(BLOCK_SIZE, BLOCK_SIZE) == [] == Pad(BLOCK_SIZE, 0);
  }

  /** A record of 40000 bytes cut after its first fragment leaves 32761 of them, and is glued to the next. */
  lemma CutLogGlues(crc: Crc, r: bytes, next: bytes)
    requires |r| == 40000 && next != []
    ensures Incomplete(BLOCK_SIZE, 0, |r|, 1)
    ensures var log := FirstFragments(crc, BLOCK_SIZE, 0, r, true, 1, false);
            ReadLog(crc, BLOCK_SIZE, true, log + Emit(crc, BLOCK_SIZE, |log| % BLOCK_SIZE, next, true).0, START)
            == ([r[..32761] + next], Eof)
  {
    assert Incomplete(BLOCK_SIZE, BLOCK_SIZE, 40000 - 32761, 0);
    assert Taken(BLOCK_SIZE, 0, |r|, 1) == 32761;
    EmitNoRecords(crc, BLOCK_SIZE, 0);
    hide Emit, EmitAll, ReadLog, FirstFragments;
    CutLogContinued(crc, [], r, 1, next);
    var log := FirstFragments(crc, BLOCK_SIZE, 0, r, true, 1, false);
    assert [] + log == log && [] + [r[..32761] + next] == [r[..32761] + next];
  }
}
