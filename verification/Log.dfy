/**
  The write-ahead log: records are split into fragments that do not cross the boundaries of
  fixed-size blocks; what is left of a block that cannot hold a fragment header is padded.
 */
module Log {
  import opened Order
  import opened Codec

  const BLOCK_SIZE: nat := 32 * 1024
  const HEADER_SIZE: nat := 7
  const MAX_FRAGMENT: nat := 256 * 256

  const FULL: byte := 1
  const FIRST: byte := 2
  const MIDDLE: byte := 3
  const LAST: byte := 4

  /** The checksum, over a fragment's type byte and data; nothing is assumed about it. */
  type Crc = bytes -> bv32

  const MASK_DELTA: bv32 := 0xa282ead8

  function MaskCrc(c: bv32): bv32 {
    ((c >> 15) | (c << 17)) + MASK_DELTA
  }

  function UnmaskCrc(mc: bv32): bv32 {
    var rot := mc - MASK_DELTA;
    (rot >> 17) | (rot << 15)
  }

  lemma UnmaskUndoesMask(c: bv32)
    ensures UnmaskCrc(MaskCrc(c)) == c
  {
  }

  /** A block holds at least one byte after a header, and a fragment's length fits its 16-bit field. */
  predicate GoodBlockSize(bs: nat) {
    HEADER_SIZE < bs < HEADER_SIZE + MAX_FRAGMENT
  }

  // ----- what the writer emits

  function Zeros(n: nat): (r: bytes)
    ensures |r| == n && forall i :: 0 <= i < n ==> r[i] == 0
  {
    seq(n, _ => 0)
  }

  /** One physical record. */
  function Fragment(crc: Crc, t: byte, data: bytes): (r: bytes)
    ensures |r| == HEADER_SIZE + |data|
  {
    EncodeFixed(MaskCrc(crc([t] + data)) as nat, 4) + EncodeFixed(|data|, 2) + [t] + data
  }

  /** Padding that closes a block too full for another header. */
  function Pad(bs: nat, off: nat): bytes
    requires off <= bs
  {
    if bs - off < HEADER_SIZE then Zeros(bs - off) else []
  }

  function StartOff(bs: nat, off: nat): nat
    requires off <= bs
  {
    if bs - off < HEADER_SIZE then 0 else off
  }

  /** How many of `n` bytes fit into the block. */
  function FragLen(bs: nat, off: nat, n: nat): (r: nat)
    requires HEADER_SIZE < bs && off <= bs
    ensures r <= n && StartOff(bs, off) + HEADER_SIZE + r <= bs
  {
    var avail := bs - StartOff(bs, off) - HEADER_SIZE;
    if n < avail then n else avail
  }

  function FragType(first: bool, last: bool): byte {
    if first && last then FULL else if first then FIRST else if last then LAST else MIDDLE
  }

  /** The bytes a record adds to a log whose current block is filled up to `off`, and the new fill. */
  function Emit(crc: Crc, bs: nat, off: nat, r: bytes, first: bool): (e: (bytes, nat))
    requires HEADER_SIZE < bs && off <= bs
    ensures e.1 <= bs
    decreases |r|, if bs - off == HEADER_SIZE then 1 else 0
  {
    if r == [] then ([], off)
    else
      var n := FragLen(bs, off, |r|);
      var rest := Emit(crc, bs, StartOff(bs, off) + HEADER_SIZE + n, r[n..], false);
      (Pad(bs, off) + Fragment(crc, FragType(first, n == |r|), r[..n]) + rest.0, rest.1)
  }

  lemma EmitStep(crc: Crc, bs: nat, off: nat, r: bytes, first: bool)
    requires HEADER_SIZE < bs && off <= bs && r != []
    ensures var n := FragLen(bs, off, |r|);
      var rest := Emit(crc, bs, StartOff(bs, off) + HEADER_SIZE + n, r[n..], false);
      Emit(crc, bs, off, r, first) == (Pad(bs, off) + Fragment(crc, FragType(first, n == |r|), r[..n]) + rest.0, rest.1)
  {
  }

  lemma EmitNothing(crc: Crc, bs: nat, off: nat, first: bool)
    requires HEADER_SIZE < bs && off <= bs
    ensures Emit(crc, bs, off, [], first) == ([], off)
  {
  }

  /** A whole log, record by record. */
  function EmitAll(crc: Crc, bs: nat, off: nat, rs: seq<bytes>): (e: (bytes, nat))
    requires HEADER_SIZE < bs && off <= bs
    ensures e.1 <= bs
    decreases rs
  {
    if rs == [] then ([], off)
    else
      var e := Emit(crc, bs, off, rs[0], true);
      var rest := EmitAll(crc, bs, e.1, rs[1..]);
      (e.0 + rest.0, rest.1)
  }

  /** `done` of all the bytes of a record are written; the rest of the record follows at `off`. */
  ghost predicate Emitted(crc: Crc, bs: nat, whole: (bytes, nat), done: bytes, off: nat, record: bytes, first: bool)
    requires HEADER_SIZE < bs && off <= bs
  {
    var rest := Emit(crc, bs, off, record, first);
    whole == (done + rest.0, rest.1)
  }

  lemma EmittedNothing(crc: Crc, bs: nat, off: nat, r: bytes)
    requires HEADER_SIZE < bs && off <= bs
    ensures Emitted(crc, bs, Emit(crc, bs, off, r, true), [], off, r, true)
  {
    hide Emit;
    var e := Emit(crc, bs, off, r, true);
    assert [] + e.0 == e.0;
  }

  lemma EmittedOneMore(crc: Crc, bs: nat, whole: (bytes, nat), done: bytes, off: nat, record: bytes, first: bool)
    requires HEADER_SIZE < bs && off <= bs && record != [] && Emitted(crc, bs, whole, done, off, record, first)
    ensures var n := FragLen(bs, off, |record|);
      var piece := Pad(bs, off) + Fragment(crc, FragType(first, n == |record|), record[..n]);
      Emitted(crc, bs, whole, done + piece, StartOff(bs, off) + HEADER_SIZE + n, record[n..], false)
  {
    EmitStep(crc, bs, off, record, first);
    hide Emit, Fragment, Pad, FragType;
    var n := FragLen(bs, off, |record|);
    var piece := Pad(bs, off) + Fragment(crc, FragType(first, n == |record|), record[..n]);
    Regroup(done, piece, Emit(crc, bs, StartOff(bs, off) + HEADER_SIZE + n, record[n..], false).0);
  }

  lemma EmittedAll(crc: Crc, bs: nat, whole: (bytes, nat), done: bytes, off: nat, first: bool)
    requires HEADER_SIZE < bs && off <= bs && Emitted(crc, bs, whole, done, off, [], first)
    ensures whole == (done, off)
  {
    EmitNothing(crc, bs, off, first);
    assert done + [] == done;
  }

  /** The last `written` bytes of a log are the fragment that ends record `r`, header and data. */
  ghost predicate EndsIn(crc: Crc, dst: bytes, r: bytes, written: nat) {
    exists k: nat, first: bool ::
      && k <= |r| && written == HEADER_SIZE + |r| - k <= |dst|
      && dst[|dst| - written..] == Fragment(crc, FragType(first, true), r[k..])
  }

  lemma LastPiece(crc: Crc, r: bytes, record: bytes, first: bool, len: nat, dst: bytes, written: nat)
    requires len <= |record| <= |r| && record == r[|r| - |record|..] && written == HEADER_SIZE + len <= |dst|
    requires dst[|dst| - written..] == Fragment(crc, FragType(first, len == |record|), record[..len])
    ensures record[len..] == r[|r| - |record[len..]|..]
    ensures len == |record| ==> EndsIn(crc, dst, r, written)
  {
    hide Fragment, FragType;
    if len == |record| {
      assert record[..len] == r[|r| - len..];
    }
  }

  class LogWriter {
    const crc: Crc
    const blockSize: nat
    var dst: bytes
    var currentBlockOffset: nat

    ghost predicate Valid()
      reads this
    {
      GoodBlockSize(blockSize) && currentBlockOffset <= blockSize
    }

    constructor (crc: Crc, blockSize: nat)
      requires GoodBlockSize(blockSize)
      ensures Valid() && dst == [] && currentBlockOffset == 0 && this.crc == crc && this.blockSize == blockSize
    {
      this.crc, this.blockSize := crc, blockSize;
      dst, currentBlockOffset := [], 0;
    }

    /** Opens a writer at the end of an existing log, which must have the default block size. */
    constructor WithOff(crc: Crc, existing: bytes)
      ensures Valid() && dst == existing && currentBlockOffset == |existing| % BLOCK_SIZE
      ensures this.crc == crc && blockSize == BLOCK_SIZE
    {
      this.crc, blockSize := crc, BLOCK_SIZE;
      dst, currentBlockOffset := existing, |existing| % BLOCK_SIZE;
    }

    method EmitRecord(t: byte, data: bytes, len: nat) returns (s: nat)
      requires len <= |data| && len < MAX_FRAGMENT
      modifies this
      ensures s == HEADER_SIZE + len && dst == old(dst) + Fragment(crc, t, data[..len])
      ensures currentBlockOffset == old(currentBlockOffset) + s
    {
      var chksum := MaskCrc(crc([t] + data[..len]));
      dst := dst + (EncodeFixed(chksum as nat, 4) + EncodeFixed(len, 2) + [t] + data[..len]);
      s := 4 + 2 + 1 + len;
      currentBlockOffset := currentBlockOffset + s;
    }

    /** Fills up the block if it has no room for another header. */
    method PadBlock()
      requires Valid()
      modifies this
      ensures Valid() && dst == old(dst) + Pad(blockSize, old(currentBlockOffset))
      ensures currentBlockOffset == StartOff(blockSize, old(currentBlockOffset))
    {
      var spaceLeft := blockSize - currentBlockOffset;
      if spaceLeft < HEADER_SIZE {
        dst := dst + Zeros(spaceLeft);
        currentBlockOffset := 0;
      }
    }

    method AddRecord(r: bytes) returns (written: nat)
      requires Valid()
      modifies this
      ensures Valid()
      ensures var e := Emit(crc, blockSize, old(currentBlockOffset), r, true);
        dst == old(dst) + e.0 && currentBlockOffset == e.1
      ensures if r == [] then written == 0 else EndsIn(crc, dst, r, written)
    {
      hide Emit, Fragment, Pad, FragType, EndsIn, Emitted;
      var record, firstFrag := r, true;
      written := 0;
      ghost var whole := Emit(crc, blockSize, currentBlockOffset, r, true);
      ghost var done: bytes := [];
      EmittedNothing(crc, blockSize, currentBlockOffset, r);
      while |record| > 0
        invariant Valid() && dst == old(dst) + done
        invariant Emitted(crc, blockSize, whole, done, currentBlockOffset, record, firstFrag)
        invariant |record| <= |r| && record == r[|r| - |record|..]
        invariant if record != [] then true else if r == [] then written == 0 else EndsIn(crc, dst, r, written)
        decreases |record|, if blockSize - currentBlockOffset == HEADER_SIZE then 1 else 0
      {
        ghost var off := currentBlockOffset;
        PadBlock();
        var avail := blockSize - currentBlockOffset - HEADER_SIZE;
        var len := if |record| < avail then |record| else avail;
        var t := FragType(firstFrag, len == |record|);
        EmittedOneMore(crc, blockSize, whole, done, off, record, firstFrag);
        done := done + (Pad(blockSize, off) + Fragment(crc, t, record[..len]));
        written := EmitRecord(t, record, len);
        LastPiece(crc, r, record, firstFrag, len, dst, written);
        record := record[len..];
        firstFrag := false;
      }
      EmittedAll(crc, blockSize, whole, done, currentBlockOffset, firstFrag);
    }
  }

  // ----- what the reader returns

  datatype ReadResult = Record(data: bytes) | Eof | Corruption | Overflow

  /** Position in the file, fill of the current block, and the buffer headers are read into. */
  datatype ReaderState = ReaderState(pos: nat, blkOff: nat, scratch: bytes)

  function Min(a: nat, b: nat): nat {
    if a < b then a else b
  }

  ghost predicate Reading(src: bytes, st: ReaderState) {
    st.pos <= |src| && |st.scratch| == HEADER_SIZE
  }

  /** Reads over the rest of a block that has no room for a header. */
  function SkipPadding(bs: nat, src: bytes, st: ReaderState): (st': ReaderState)
    requires Reading(src, st) && st.blkOff <= bs
    ensures Reading(src, st') && st.pos <= st'.pos
  {
    if bs - st.blkOff < HEADER_SIZE then
      var k := Min(bs - st.blkOff, |src| - st.pos);
      ReaderState(st.pos + k, 0, src[st.pos..st.pos + k] + st.scratch[k..])
    else st
  }

  /** One fragment read, or the reason why reading stops. */
  datatype Piece = Got(typ: byte, data: bytes) | Stop(why: ReadResult)

  /**
    Reads one fragment. Short reads happen only at the end of the file: a header cut short there
    keeps what the buffer held before, and missing data is left zero. Overflow stands for the
    subtraction below zero that follows a fragment running past its block.
   */
  function ReadPiece(crc: Crc, bs: nat, checks: bool, src: bytes, st: ReaderState): (r: (Piece, ReaderState))
    requires Reading(src, st)
    ensures Reading(src, r.1) && st.pos <= r.1.pos
    ensures r.0.Got? ==> st.pos < r.1.pos
    ensures r.0.Stop? ==> !r.0.why.Record?
  {
    if bs < st.blkOff then (Stop(Overflow), st)
    else
      var s := SkipPadding(bs, src, st);
      var h := Min(HEADER_SIZE, |src| - s.pos);
      if h == 0 then (Stop(Eof), s)
      else
        var head := src[s.pos..s.pos + h] + s.scratch[h..];
        var checksum, length, typ := DecodeFixed(head[0..4]), DecodeFixed(head[4..6]), head[6];
        var d := Min(length, |src| - s.pos - h);
        var data := src[s.pos + h..s.pos + h + d];
        var s' := ReaderState(s.pos + h + d, s.blkOff + h + d, head);
        if checks && !CheckIntegrity(crc, typ, data, checksum) then (Stop(Corruption), s')
        else (Got(typ, data + Zeros(length - d)), s')
  }

  /** One call of read(), with `acc` collected so far: fragments up to the one that completes a record. */
  function ReadOne(crc: Crc, bs: nat, checks: bool, src: bytes, st: ReaderState,
                   acc: bytes): (r: (ReadResult, ReaderState))
    requires Reading(src, st)
    ensures Reading(src, r.1) && st.pos <= r.1.pos
    ensures r.0.Record? ==> st.pos < r.1.pos
    decreases |src| - st.pos
  {
    var (piece, s) := ReadPiece(crc, bs, checks, src, st);
    match piece
    case Stop(why) => (why, s)
    case Got(typ, data) =>
      if typ == FULL || typ == LAST then (Record(acc + data), s)
      else ReadOne(crc, bs, checks, src, s, acc + data)
  }

  predicate CheckIntegrity(crc: Crc, typ: byte, data: bytes, expected: nat) {
    expected < U32_LIMIT && UnmaskCrc(expected as bv32) == crc([typ] + data)
  }

  class LogReader {
    const crc: Crc
    const blocksize: nat
    const checksums: bool
    const src: bytes
    var st: ReaderState

    ghost predicate Valid()
      reads this
    {
      Reading(src, st)
    }

    constructor (crc: Crc, blocksize: nat, src: bytes, checksums: bool)
      ensures Valid() && st == ReaderState(0, 0, Zeros(HEADER_SIZE))
      ensures this.crc == crc && this.blocksize == blocksize && this.src == src && this.checksums == checksums
    {
      this.crc, this.blocksize, this.src, this.checksums := crc, blocksize, src, checksums;
      st := ReaderState(0, 0, Zeros(HEADER_SIZE));
    }

    /** Reads up to `n` bytes; fewer only at the end of the file. */
    method ReadBytes(n: nat) returns (data: bytes)
      requires Valid()
      modifies this
      ensures Valid() && data == src[old(st).pos..old(st).pos + Min(n, |src| - old(st).pos)]
      ensures st == old(st).(pos := old(st).pos + |data|)
    {
      data := src[st.pos..st.pos + Min(n, |src| - st.pos)];
      st := st.(pos := st.pos + |data|);
    }

    method SkipRest()
      requires Valid() && st.blkOff <= blocksize
      modifies this
      ensures Valid() && st == SkipPadding(blocksize, src, old(st))
    {
      if blocksize - st.blkOff < HEADER_SIZE {
        var padding := ReadBytes(blocksize - st.blkOff);
        st := st.(blkOff := 0, scratch := padding + st.scratch[|padding|..]);
      }
    }

    method ReadFragment() returns (r: Piece)
      requires Valid()
      modifies this
      ensures Valid() && (r, st) == ReadPiece(crc, blocksize, checksums, src, old(st))
    {
      hide DecodeFixed, CheckIntegrity, Zeros, SkipPadding;
      if blocksize < st.blkOff {
        return Stop(Overflow);
      }
      SkipRest();
      ghost var s := st;
      var head := ReadBytes(HEADER_SIZE);
      if |head| == 0 {
        return Stop(Eof);
      }
      st := st.(blkOff := st.blkOff + |head|, scratch := head + st.scratch[|head|..]);
      var checksum, length, typ := DecodeFixed(st.scratch[0..4]), DecodeFixed(st.scratch[4..6]), st.scratch[6];
      var data := ReadBytes(length);
      st := st.(blkOff := st.blkOff + |data|);
      if checksums && !CheckIntegrity(crc, typ, data, checksum) {
        return Stop(Corruption);
      }
      r := Got(typ, data + Zeros(length - |data|));
    }

    method Read() returns (r: ReadResult)
      requires Valid()
      modifies this
      ensures Valid() && (r, st) == ReadOne(crc, blocksize, checksums, src, old(st), [])
    {
      hide ReadPiece;
      var dst: bytes := [];
      while true
        invariant Valid() && ReadOne(crc, blocksize, checksums, src, old(st), [])
                  == ReadOne(crc, blocksize, checksums, src, st, dst)
        decreases |src| - st.pos
      {
        var piece := ReadFragment();
        match piece {
          case Stop(why) =>
            return why;
          case Got(typ, data) =>
            dst := dst + data;
            if typ == FULL || typ == LAST {
              return Record(dst);
            }
        }
      }
    }
  }
}
