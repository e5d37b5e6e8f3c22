/**
  Logs that can be written on: whatever is appended, reading returns the records so far and then
  goes on from the end of them. Also logs that were cut by a crash and are then written on.
 */
module LogStages {
  import opened Order
  import opened Codec
  import opened Log
  import opened LogProofs

  /** Block fills that reader and writer treat alike: a full block and an empty one. */
  ghost predicate Alike(a: nat, b: nat) {
    && a <= BLOCK_SIZE && b <= BLOCK_SIZE
    && (a == b || (a == 0 && b == BLOCK_SIZE) || (a == BLOCK_SIZE && b == 0))
  }

  /** Fills with the same remainder are alike. */
  lemma AlikeByRemainder(a: nat, b: nat)
    requires a <= BLOCK_SIZE && b <= BLOCK_SIZE
    ensures Alike(a, b) <==> a % BLOCK_SIZE == b % BLOCK_SIZE
  {
  }

  /** Reading what was written with `tail` behind it returns `rs` and stands in front of `tail`, at `s`. */
  ghost predicate StageAt(crc: Crc, dst: bytes, off: nat, rs: seq<bytes>, tail: bytes, s: ReaderState) {
    var src := dst + tail;
    && Reading(src, s) && s.pos == |dst| && Alike(s.blkOff, off)
    && var (more, end) := ReadLog(crc, BLOCK_SIZE, true, src, s);
       ReadLog(crc, BLOCK_SIZE, true, src, START) == (rs + more, end)
  }

  ghost predicate Reaches(crc: Crc, dst: bytes, off: nat, rs: seq<bytes>, tail: bytes) {
    exists s :: StageAt(crc, dst, off, rs, tail, s)
  }

  /** The log holds `rs`, and a writer at block fill `off` can write on. */
  ghost predicate Stage(crc: Crc, dst: bytes, off: nat, rs: seq<bytes>) {
    off <= BLOCK_SIZE && forall tail :: Reaches(crc, dst, off, rs, tail)
  }

  lemma StageFill(crc: Crc, dst: bytes, off: nat, rs: seq<bytes>)
    requires Stage(crc, dst, off, rs)
    ensures off <= BLOCK_SIZE && forall b: nat :: Alike(b, off) ==> b <= BLOCK_SIZE && Alike(off, b)
  {
  }

  lemma StageEmpty(crc: Crc)
    ensures Stage(crc, [], 0, [])
  {
    hide ReadLog;
    forall tail: bytes ensures Reaches(crc, [], 0, [], tail) {
      assert [] + ReadLog(crc, BLOCK_SIZE, true, [] + tail, START).0
             == ReadLog(crc, BLOCK_SIZE, true, [] + tail, START).0;
      assert StageAt(crc, [], 0, [], tail, START);
    }
  }

  lemma StageAlike(crc: Crc, dst: bytes, off: nat, off': nat, rs: seq<bytes>)
    requires Stage(crc, dst, off, rs) && Alike(off, off')
    ensures Stage(crc, dst, off', rs)
  {
    hide ReadLog;
    forall tail ensures Reaches(crc, dst, off', rs, tail) {
      assert Reaches(crc, dst, off, rs, tail);
      var s :| StageAt(crc, dst, off, rs, tail, s);
      assert StageAt(crc, dst, off', rs, tail, s);
    }
  }

  /** A log that can be written on reads back as its records. */
  lemma StageReads(crc: Crc, dst: bytes, off: nat, rs: seq<bytes>)
    requires Stage(crc, dst, off, rs)
    ensures ReadLog(crc, BLOCK_SIZE, true, dst, START) == (rs, Eof)
  {
    hide ReadLog;
    assert Reaches(crc, dst, off, rs, []);
    var s :| StageAt(crc, dst, off, rs, [], s);
    assert dst + [] == dst;
    EndsHere(crc, dst, s);
    assert rs + [] == rs;
  }

  /** Writers at fills that are alike write alike. */
  lemma EmitAlike(crc: Crc, a: nat, b: nat, r: bytes)
    requires Alike(a, b) && r != []
    ensures Emit(crc, BLOCK_SIZE, a, r, true) == Emit(crc, BLOCK_SIZE, b, r, true)
  {
    hide Emit;
    FullStartsLikeEmpty(crc, r);
  }

  lemma Behind(dst: bytes, more: bytes, tail: bytes)
    ensures (dst + (more + tail))[|dst|..] == more + tail
  {
  }

  /** Where the rest of the file is left, the position is known. */
  lemma AtTail(src: bytes, pos: nat, n: nat, tail: bytes)
    requires pos <= |src| && src[pos..] == tail && |src| == n + |tail|
    ensures pos == n
  {
    assert |src[pos..]| == |src| - pos;
  }

  /** Adding a record keeps the log fit for writing on. */
  lemma StageGrows(crc: Crc, dst: bytes, off: nat, rs: seq<bytes>, r: bytes)
    requires Stage(crc, dst, off, rs) && r != []
    ensures var e := Emit(crc, BLOCK_SIZE, off, r, true); Stage(crc, dst + e.0, e.1, rs + [r])
  {
    hide ReadLog, Emit, ReadOne;
    var e := Emit(crc, BLOCK_SIZE, off, r, true);
    forall tail ensures Reaches(crc, dst + e.0, e.1, rs + [r], tail) {
      var src := dst + (e.0 + tail);
      assert Reaches(crc, dst, off, rs, e.0 + tail);
      var s :| StageAt(crc, dst, off, rs, e.0 + tail, s);
      Regroup(dst, e.0, tail);
      Behind(dst, e.0, tail);
      EmitAlike(crc, off, s.blkOff, r);
      RecordReads(crc, BLOCK_SIZE, true, src, s, r, true, [], tail);
      ReadLogStep(crc, BLOCK_SIZE, true, src, s, r);
      var s1 := ReadOne(crc, BLOCK_SIZE, true, src, s, []).1;
      AtTail(src, s1.pos, |dst| + |e.0|, tail);
      var more := ReadLog(crc, BLOCK_SIZE, true, src, s1).0;
      assert rs + ([r] + more) == (rs + [r]) + more;
      assert StageAt(crc, dst + e.0, e.1, rs + [r], tail, s1);
    }
  }

  // ----- cut by a crash

  lemma CutAlike(crc: Crc, a: nat, b: nat, r: bytes, m: nat, padded: bool)
    requires Alike(a, b) && Incomplete(BLOCK_SIZE, a, |r|, m)
    ensures Incomplete(BLOCK_SIZE, b, |r|, m) && Taken(BLOCK_SIZE, a, |r|, m) == Taken(BLOCK_SIZE, b, |r|, m)
    ensures FirstFragments(crc, BLOCK_SIZE, a, r, true, m, padded)
            == FirstFragments(crc, BLOCK_SIZE, b, r, true, m, padded)
  {
    hide Incomplete, Taken, FirstFragments;
    if a != b {
      FullCutLikeEmpty(crc, r, m, padded);
    }
  }

  lemma FullCutLikeEmpty(crc: Crc, r: bytes, m: nat, padded: bool)
    ensures Incomplete(BLOCK_SIZE, BLOCK_SIZE, |r|, m) <==> Incomplete(BLOCK_SIZE, 0, |r|, m)
    ensures Incomplete(BLOCK_SIZE, 0, |r|, m) ==>
      && Taken(BLOCK_SIZE, BLOCK_SIZE, |r|, m) == Taken(BLOCK_SIZE, 0, |r|, m)
      && FirstFragments(crc, BLOCK_SIZE, BLOCK_SIZE, r, true, m, padded)
          == FirstFragments(crc, BLOCK_SIZE, 0, r, true, m, padded)
  {
    hide Fragment;
    assert Pad(BLOCK_SIZE, BLOCK_SIZE) == [] == Pad(BLOCK_SIZE, 0);
    assert FragLen(BLOCK_SIZE, BLOCK_SIZE, |r|) == FragLen(BLOCK_SIZE, 0, |r|);
  }

  /** A log cut inside its last record reads back as the records before that. */
  lemma CutReads(crc: Crc, dst: bytes, off: nat, rs: seq<bytes>, r: bytes, m: nat, padded: bool)
    requires Stage(crc, dst, off, rs) && Incomplete(BLOCK_SIZE, off, |r|, m)
    ensures ReadLog(crc, BLOCK_SIZE, true, dst + FirstFragments(crc, BLOCK_SIZE, off, r, true, m, padded), START)
            == (rs, Eof)
  {
    hide ReadLog, FirstFragments, Incomplete, Taken;
    var cut := FirstFragments(crc, BLOCK_SIZE, off, r, true, m, padded);
    assert Reaches(crc, dst, off, rs, cut);
    var s :| StageAt(crc, dst, off, rs, cut, s);
    CutAlike(crc, off, s.blkOff, r, m, padded);
    assert (dst + cut)[|dst|..] == cut;
    CutRecordReadsEof(crc, BLOCK_SIZE, true, dst + cut, s, r, true, m, padded, []);
    NothingRead(crc, dst + cut, s);
    assert rs + [] == rs;
  }

  lemma NothingRead(crc: Crc, src: bytes, s: ReaderState)
    requires Reading(src, s) && ReadOne(crc, BLOCK_SIZE, true, src, s, []).0 == Eof
    ensures ReadLog(crc, BLOCK_SIZE, true, src, s) == ([], Eof)
  {
  }

  /** Padding in front of a fragment that was not written adds nothing after the first fragments. */
  lemma {:induction false} PadsNothing(crc: Crc, off: nat, r: bytes, first: bool, m: nat)
    requires off <= BLOCK_SIZE && m > 0 && Incomplete(BLOCK_SIZE, off, |r|, m)
    ensures FirstFragments(crc, BLOCK_SIZE, off, r, first, m, true)
            == FirstFragments(crc, BLOCK_SIZE, off, r, first, m, false)
    decreases m
  {
    hide Fragment;
    var n := FragLen(BLOCK_SIZE, off, |r|);
    assert StartOff(BLOCK_SIZE, off) + HEADER_SIZE + n == BLOCK_SIZE;
    if m > 1 {
      PadsNothing(crc, BLOCK_SIZE, r[n..], false, m - 1);
    } else {
      assert Pad(BLOCK_SIZE, BLOCK_SIZE) == [];
    }
  }

  /** The fill of the block behind the first fragments of a record. */
  ghost function FillAfter(off: nat, m: nat, padded: bool): (r: nat)
    requires off <= BLOCK_SIZE
    ensures r <= BLOCK_SIZE
  {
    if m > 0 then 0 else if padded then StartOff(BLOCK_SIZE, off) else off
  }

  lemma FillsAlike(a: nat, b: nat, m: nat, padded: bool, x: nat, d: nat)
    requires Alike(a, b) && Alike(x, FillAfter(b, m, padded)) && d % BLOCK_SIZE == FillAfter(a, m, padded) % BLOCK_SIZE
    ensures Alike(x, d % BLOCK_SIZE)
  {
    AlikeByRemainder(d % BLOCK_SIZE, FillAfter(a, m, padded));
  }

  /** Filling up a block that is filled up to `off` ends a block. */
  lemma FillsUp(d: nat, off: nat)
    requires off <= BLOCK_SIZE && off % BLOCK_SIZE == d % BLOCK_SIZE
    ensures (d + (BLOCK_SIZE - off)) % BLOCK_SIZE == 0
  {
    if off < BLOCK_SIZE {
      assert d + (BLOCK_SIZE - off) == BLOCK_SIZE * (d / BLOCK_SIZE + 1);
    }
  }

  /** Where the reader stands, and what it has collected, behind the first fragments of a cut record. */
  lemma PassesCut(crc: Crc, src: bytes, st: ReaderState, r: bytes, m: nat, padded: bool, rest: bytes)
    returns (s: ReaderState)
    requires Reading(src, st) && st.blkOff <= BLOCK_SIZE && Incomplete(BLOCK_SIZE, st.blkOff, |r|, m)
    requires src[st.pos..] == FirstFragments(crc, BLOCK_SIZE, st.blkOff, r, true, m, padded) + rest
    ensures Reading(src, s) && src[s.pos..] == rest
    ensures Alike(s.blkOff, FillAfter(st.blkOff, m, padded))
    ensures ReadOne(crc, BLOCK_SIZE, true, src, st, [])
            == ReadOne(crc, BLOCK_SIZE, true, src, s, r[..Taken(BLOCK_SIZE, st.blkOff, |r|, m)])
  {
    var x := Taken(BLOCK_SIZE, st.blkOff, |r|, m);
    assert [] + r[..x] == r[..x];
    if m == 0 && padded {
      s := SkipPadding(BLOCK_SIZE, src, st);
      SkipsPad(BLOCK_SIZE, src, st, rest);
      SkipsOnce(crc, src, st);
    } else {
      if padded {
        PadsNothing(crc, st.blkOff, r, true, m);
      }
      hide ReadOne, FirstFragments, Taken, Incomplete;
      s := CutRecordContinues(crc, BLOCK_SIZE, true, src, st, r, true, m, [], rest);
    }
  }

  lemma {:induction false} SkipsOnce(crc: Crc, src: bytes, st: ReaderState)
    requires Reading(src, st) && st.blkOff <= BLOCK_SIZE
    ensures ReadOne(crc, BLOCK_SIZE, true, src, st, [])
            == ReadOne(crc, BLOCK_SIZE, true, src, SkipPadding(BLOCK_SIZE, src, st), [])
  {
    hide CheckIntegrity, DecodeFixed;
    var s := SkipPadding(BLOCK_SIZE, src, st);
    assert SkipPadding(BLOCK_SIZE, src, s) == s;
    assert ReadPiece(crc, BLOCK_SIZE, true, src, st) == ReadPiece(crc, BLOCK_SIZE, true, src, s);
  }

  /** Where a writer opened at the end of the cut log stands in its block. */
  lemma CutFill(crc: Crc, dst: bytes, off: nat, r: bytes, m: nat, padded: bool)
    requires off <= BLOCK_SIZE && off % BLOCK_SIZE == |dst| % BLOCK_SIZE && Incomplete(BLOCK_SIZE, off, |r|, m)
    ensures |dst + FirstFragments(crc, BLOCK_SIZE, off, r, true, m, padded)| % BLOCK_SIZE
         == FillAfter(off, m, padded) % BLOCK_SIZE
  {
    hide FirstFragments, Incomplete;
    var cut := FirstFragments(crc, BLOCK_SIZE, off, r, true, m, padded);
    if m > 0 {
      if padded { PadsNothing(crc, off, r, true, m); }
      CutFillsBlock(crc, off, r, true, m);
      hide FillAfter;
      SamePhase(off, |dst|, |cut|);
      FillStarts(off, m, padded);
    } else {
      NoFragmentsLength(crc, off, r, padded);
      FillsUp(|dst|, off);
    }
  }

  lemma FillStarts(off: nat, m: nat, padded: bool)
    requires off <= BLOCK_SIZE && m > 0
    ensures FillAfter(off, m, padded) % BLOCK_SIZE == 0
  {
  }

  lemma NoFragmentsLength(crc: Crc, off: nat, r: bytes, padded: bool)
    requires off <= BLOCK_SIZE
    ensures |FirstFragments(crc, BLOCK_SIZE, off, r, true, 0, padded)|
         == if padded && BLOCK_SIZE - off < HEADER_SIZE then BLOCK_SIZE - off else 0
  {
  }

  /**
    Reading a cut log with `rest` behind it: after `rs` the reader, at `s`, goes on at `s1` in front
    of `rest` with what was left of the cut record collected.
   */
  lemma ReadsOverCut(crc: Crc, dst: bytes, off: nat, rs: seq<bytes>, r: bytes, m: nat, padded: bool, rest: bytes)
    returns (s: ReaderState, s1: ReaderState)
    requires Stage(crc, dst, off, rs) && off % BLOCK_SIZE == |dst| % BLOCK_SIZE && Incomplete(BLOCK_SIZE, off, |r|, m)
    ensures var disk := dst + FirstFragments(crc, BLOCK_SIZE, off, r, true, m, padded);
      var src := disk + rest;
      && Reading(src, s) && Reading(src, s1) && s1.pos == |disk| && Alike(s1.blkOff, |disk| % BLOCK_SIZE)
      && ReadLog(crc, BLOCK_SIZE, true, src, START)
         == (rs + ReadLog(crc, BLOCK_SIZE, true, src, s).0, ReadLog(crc, BLOCK_SIZE, true, src, s).1)
      && ReadOne(crc, BLOCK_SIZE, true, src, s, [])
         == ReadOne(crc, BLOCK_SIZE, true, src, s1, r[..Taken(BLOCK_SIZE, off, |r|, m)])
  {
    hide ReadLog, FirstFragments, Incomplete, Taken, ReadOne, FillAfter, Alike;
    StageFill(crc, dst, off, rs);
    var cut := FirstFragments(crc, BLOCK_SIZE, off, r, true, m, padded);
    assert Reaches(crc, dst, off, rs, cut + rest);
    s :| StageAt(crc, dst, off, rs, cut + rest, s);
    var src := dst + (cut + rest);
    Regroup(dst, cut, rest);
    Behind(dst, cut, rest);
    CutAlike(crc, off, s.blkOff, r, m, padded);
    CutFill(crc, dst, off, r, m, padded);
    s1 := PassesCut(crc, src, s, r, m, padded, rest);
    FillsAlike(off, s.blkOff, m, padded, s1.blkOff, |dst + cut|);
    AtTail(src, s1.pos, |dst + cut|, rest);
  }

  /** The next record written to a cut log is read back glued to what was left of the cut one. */
  lemma CutGlues(crc: Crc, dst: bytes, off: nat, rs: seq<bytes>, r: bytes, m: nat, padded: bool, next: bytes)
    requires Stage(crc, dst, off, rs) && off % BLOCK_SIZE == |dst| % BLOCK_SIZE
             && Incomplete(BLOCK_SIZE, off, |r|, m) && next != []
    ensures var disk := dst + FirstFragments(crc, BLOCK_SIZE, off, r, true, m, padded);
      ReadLog(crc, BLOCK_SIZE, true, disk + Emit(crc, BLOCK_SIZE, |disk| % BLOCK_SIZE, next, true).0, START)
      == (rs + [r[..Taken(BLOCK_SIZE, off, |r|, m)] + next], Eof)
  {
    hide ReadLog, FirstFragments, Incomplete, Taken, Emit, ReadOne, Reaches;
    var disk := dst + FirstFragments(crc, BLOCK_SIZE, off, r, true, m, padded);
    var x := Taken(BLOCK_SIZE, off, |r|, m);
    var more := Emit(crc, BLOCK_SIZE, |disk| % BLOCK_SIZE, next, true).0;
    var s, s1 := ReadsOverCut(crc, dst, off, rs, r, m, padded, more);
    EmitAlike(crc, |disk| % BLOCK_SIZE, s1.blkOff, next);
    GluedRecord(crc, disk + more, s, s1, r[..x], next);
  }

  lemma GluedRecord(crc: Crc, src: bytes, s: ReaderState, s1: ReaderState, left: bytes, next: bytes)
    requires Reading(src, s) && Reading(src, s1) && s1.blkOff <= BLOCK_SIZE && next != []
    requires src[s1.pos..] == Emit(crc, BLOCK_SIZE, s1.blkOff, next, true).0
    requires ReadOne(crc, BLOCK_SIZE, true, src, s, []) == ReadOne(crc, BLOCK_SIZE, true, src, s1, left)
    ensures ReadLog(crc, BLOCK_SIZE, true, src, s) == ([left + next], Eof)
  {
    hide ReadLog, Emit, ReadOne;
    assert src[s1.pos..] + [] == src[s1.pos..];
    RecordReads(crc, BLOCK_SIZE, true, src, s1, next, true, left, []);
    assert [] + (left + next) == left + next;
    ReadLogStep(crc, BLOCK_SIZE, true, src, s, left + next);
    EndsHere(crc, src, ReadOne(crc, BLOCK_SIZE, true, src, s, []).1);
    assert [left + next] + [] == [left + next];
  }

  lemma SameRead(crc: Crc, src: bytes, s: ReaderState, s1: ReaderState)
    requires Reading(src, s) && Reading(src, s1)
    requires ReadOne(crc, BLOCK_SIZE, true, src, s, []) == ReadOne(crc, BLOCK_SIZE, true, src, s1, [])
    ensures ReadLog(crc, BLOCK_SIZE, true, src, s) == ReadLog(crc, BLOCK_SIZE, true, src, s1)
  {
    hide ReadOne;
  }

  lemma CutKeepsStage(crc: Crc, dst: bytes, off: nat, rs: seq<bytes>, r: bytes, m: nat, padded: bool)
    requires Stage(crc, dst, off, rs) && off % BLOCK_SIZE == |dst| % BLOCK_SIZE && Incomplete(BLOCK_SIZE, off, |r|, m)
    requires Taken(BLOCK_SIZE, off, |r|, m) == 0
    ensures var disk := dst + FirstFragments(crc, BLOCK_SIZE, off, r, true, m, padded);
            Stage(crc, disk, |disk| % BLOCK_SIZE, rs)
  {
    hide ReadLog, FirstFragments, Incomplete, Taken, ReadOne;
    var disk := dst + FirstFragments(crc, BLOCK_SIZE, off, r, true, m, padded);
    forall tail ensures Reaches(crc, disk, |disk| % BLOCK_SIZE, rs, tail) {
      var s, s1 := ReadsOverCut(crc, dst, off, rs, r, m, padded, tail);
      assert r[..0] == [];
      SameRead(crc, disk + tail, s, s1);
      assert StageAt(crc, disk, |disk| % BLOCK_SIZE, rs, tail, s1);
    }
  }

  /** A cut log can be written on exactly if no byte of the cut record was left. */
  lemma CutLogReusable(crc: Crc, dst: bytes, off: nat, rs: seq<bytes>, r: bytes, m: nat, padded: bool)
    requires Stage(crc, dst, off, rs) && off % BLOCK_SIZE == |dst| % BLOCK_SIZE && Incomplete(BLOCK_SIZE, off, |r|, m)
    ensures var disk := dst + FirstFragments(crc, BLOCK_SIZE, off, r, true, m, padded);
      Stage(crc, disk, |disk| % BLOCK_SIZE, rs) <==> Taken(BLOCK_SIZE, off, |r|, m) == 0
  {
    hide ReadLog, FirstFragments, Incomplete, Taken, Reaches, Emit;
    var disk, x := dst + FirstFragments(crc, BLOCK_SIZE, off, r, true, m, padded), Taken(BLOCK_SIZE, off, |r|, m);
    if x == 0 {
      CutKeepsStage(crc, dst, off, rs, r, m, padded);
    } else if Stage(crc, disk, |disk| % BLOCK_SIZE, rs) {
      var next: bytes := [1];
      StageGrows(crc, disk, |disk| % BLOCK_SIZE, rs, next);
      var e := Emit(crc, BLOCK_SIZE, |disk| % BLOCK_SIZE, next, true);
      StageReads(crc, disk + e.0, e.1, rs + [next]);
      CutGlues(crc, dst, off, rs, r, m, padded, next);
      SameLast(rs, r[..x], next);
      assert false;
    }
  }
}
