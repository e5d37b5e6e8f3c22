/** A database over its log: writes, memtable rotation, restarts and crashes. */
module Durability {
  import opened Order
  import opened Codec
  import opened Versions
  import opened Log
  import opened LogProofs
  import opened LogStages
  import opened WriteBatches
  import opened Recovery

  ghost predicate AllFit(bs: seq<Logged>) {
    forall i :: 0 <= i < |bs| ==> Fits(bs[i])
  }

  ghost function Records(bs: seq<Logged>): (r: seq<bytes>)
    requires AllFit(bs)
    ensures |r| == |bs|
  {
    seq(|bs|, i requires 0 <= i < |bs| => BatchBytes(bs[i].first, bs[i].ops))
  }

  /** A log file holds these batches, and its writer, at this fill of the block, can write on. */
  ghost predicate LogHolds(crc: Crc, dst: bytes, off: nat, bs: seq<Logged>) {
    && AllFit(bs)
    && off <= BLOCK_SIZE && off % BLOCK_SIZE == |dst| % BLOCK_SIZE
    && Stage(crc, dst, off, Records(bs))
  }

  lemma RecordsEncode(bs: seq<Logged>)
    requires AllFit(bs)
    ensures EncodeAllOf(Records(bs), bs)
  {
  }

  lemma HeldLogReplays(crc: Crc, dst: bytes, off: nat, bs: seq<Logged>)
    requires LogHolds(crc, dst, off, bs)
    ensures Replays(crc, dst, bs)
  {
    hide Stage, Records, ReadLog;
    RecordsEncode(bs);
    StageReads(crc, dst, off, Records(bs));
  }

  lemma EmptyLogHolds(crc: Crc)
    ensures LogHolds(crc, [], 0, [])
  {
    StageEmpty(crc);
    hide Stage;
    assert Records([]) == [];
  }

  lemma PhaseKept(crc: Crc, off: nat, dst: bytes, r: bytes)
    requires off <= BLOCK_SIZE && off % BLOCK_SIZE == |dst| % BLOCK_SIZE
    ensures var e := Emit(crc, BLOCK_SIZE, off, r, true); e.1 % BLOCK_SIZE == |dst + e.0| % BLOCK_SIZE
  {
    hide Emit;
    EmitKeepsPhase(crc, off, r, true);
    SamePhase(off, |dst|, |Emit(crc, BLOCK_SIZE, off, r, true).0|);
  }

  /** Adding a batch to a log adds its record. */
  lemma LogGrows(crc: Crc, dst: bytes, off: nat, bs: seq<Logged>, b: Logged)
    requires LogHolds(crc, dst, off, bs) && Fits(b)
    ensures var e := Emit(crc, BLOCK_SIZE, off, BatchBytes(b.first, b.ops), true);
            LogHolds(crc, dst + e.0, e.1, bs + [b])
  {
    var r := BatchBytes(b.first, b.ops);
    RecordsAppend(bs, b);
    hide Emit, Stage, Records, BatchBytes;
    StageGrows(crc, dst, off, Records(bs), r);
    PhaseKept(crc, off, dst, r);
  }

  lemma RecordsAppend(bs: seq<Logged>, b: Logged)
    requires AllFit(bs) && Fits(b)
    ensures AllFit(bs + [b]) && Records(bs + [b]) == Records(bs) + [BatchBytes(b.first, b.ops)]
  {
    hide BatchBytes;
  }

  // ----- sequence numbers

  /** Entries in the order of their sequence numbers, which lie above `lo` and not above `hi`. */
  ghost predicate Rising(es: seq<Entry>, lo: nat, hi: nat) {
    && (forall i :: 0 <= i < |es| ==> lo < es[i].sn <= hi)
    && (forall i, j :: 0 <= i < j < |es| ==> es[i].sn < es[j].sn)
  }

  lemma RisingNumbered(es: seq<Entry>, ops: seq<BatchOp>, n: nat)
    requires Rising(es, 0, n)
    ensures Rising(es + Numbered(ops, n + 1), 0, n + |ops|)
  {
  }

  ghost predicate OldLogs(crc: Crc, logs: seq<bytes>, bss: seq<seq<Logged>>) {
    && |logs| == |bss|
    && (forall i :: 0 <= i < |logs| ==> Replays(crc, logs[i], bss[i]))
    && AllEntries(Concat(bss)) == []
  }

  /**
    The database: current log, older live logs, memtable, tables, and last sequence number here and in the
    manifest.
   */
  datatype State = State(
    dst: bytes, off: nat, oldLogs: seq<bytes>, mem: seq<Entry>, tables: seq<seq<Entry>>, lastSeq: nat, manifestSeq: nat,
    batches: seq<Logged>, oldBatches: seq<seq<Logged>>)

  /** Everything stored, oldest first. */
  function Stored(s: State): seq<Entry> {
    AllOf(s.tables) + s.mem
  }

  ghost predicate Consistent(crc: Crc, s: State) {
    && LogHolds(crc, s.dst, s.off, s.batches)
    && s.mem == AllEntries(s.batches)
    && OldLogs(crc, s.oldLogs, s.oldBatches)
    && Rising(AllOf(s.tables), 0, s.manifestSeq)
    && Rising(Stored(s), 0, s.lastSeq)
    && s.lastSeq == Known(s.manifestSeq, s.oldBatches, s.batches)
  }

  /** The greatest sequence number that the manifest and the logs tell of. */
  ghost function Known(manifestSeq: nat, oldBatches: seq<seq<Logged>>, batches: seq<Logged>): nat {
    Max(manifestSeq, Max(MaxSeq(Concat(oldBatches)), MaxSeq(batches)))
  }

  lemma BatchAppends(bs: seq<Logged>, b: Logged)
    ensures AllEntries(bs + [b]) == AllEntries(bs) + EntriesOf(b)
    ensures MaxSeq(bs + [b]) == Max(MaxSeq(bs), LastOf(b))
  {
    hide EntriesOf, LastOf;
    assert (bs + [b])[..|bs|] == bs;
  }

  lemma LastLog(bss: seq<seq<Logged>>, bs: seq<Logged>)
    ensures AllEntries(Concat(bss + [bs])) == AllEntries(Concat(bss)) + AllEntries(bs)
    ensures MaxSeq(Concat(bss + [bs])) == Max(MaxSeq(Concat(bss)), MaxSeq(bs))
  {
    hide AllEntries, MaxSeq, Concat;
    var all := bss + [bs];
    assert all[..|bss| + 1] == all && all[..|bss|] == bss;
    OneMoreLog(all, |bss|);
  }

  lemma ReopenedHolds(crc: Crc, disk: bytes, bs: seq<Logged>)
    requires Reusable(crc, disk, bs)
    ensures LogHolds(crc, disk, |disk| % BLOCK_SIZE, bs)
  {
    hide Stage;
  }

  lemma {:induction false} PrefixRises(stored: seq<Entry>, batches: seq<Logged>, bs: seq<Logged>, hi: nat)
    requires bs <= batches && Rising(stored + AllEntries(batches), 0, hi)
    ensures Rising(stored + AllEntries(bs), 0, hi)
  {
    var rest := batches[|bs|..];
    assert batches == bs + rest;
    AllEntriesAppend(bs, rest);
    hide AllEntries;
    var es := stored + AllEntries(bs);
    var all := stored + AllEntries(batches);
    assert forall i :: 0 <= i < |es| ==> es[i] == all[i];
  }

  lemma StoredRises(stored: seq<Entry>, bs: seq<Logged>, manifestSeq: nat, hi: nat, lastSeq: nat)
    requires Rising(stored + AllEntries(bs), 0, hi) && Rising(stored, 0, manifestSeq)
    requires lastSeq >= manifestSeq && lastSeq >= MaxSeq(bs)
    ensures Rising(stored + AllEntries(bs), 0, lastSeq) && Rising(stored, 0, lastSeq)
  {
    SequencesBelowMax(bs);
    hide AllEntries, MaxSeq;
    var es := stored + AllEntries(bs);
    forall i | 0 <= i < |es| ensures 0 < es[i].sn <= lastSeq {
      if i < |stored| {
        assert es[i] == stored[i];
      } else {
        assert es[i] == AllEntries(bs)[i - |stored|];
      }
    }
  }

  ghost function Rotated(s: State): State {
    State([], 0, [], [], s.tables + [s.mem], s.lastSeq, s.lastSeq, [], [])
  }

  lemma RotateKeeps(crc: Crc, s: State)
    requires Consistent(crc, s)
    ensures Consistent(crc, Rotated(s)) && Stored(Rotated(s)) == Stored(s)
  {
    EmptyLogHolds(crc);
    NoLogs([]);
    NothingYet([]);
    AllOfAppend(s.tables, [s.mem]);
    AllOfOne(s.mem);
    hide LogHolds, Rising, AllOf, AllEntries, MaxSeq, Concat, Replays;
    assert AllOf(s.tables + [s.mem]) + [] == Stored(s);
  }

  ghost function Written(crc: Crc, s: State, ops: seq<BatchOp>): State
    requires s.off <= BLOCK_SIZE
  {
    var e := Emit(crc, BLOCK_SIZE, s.off, BatchBytes(s.lastSeq + 1, ops), true);
    s.(dst := s.dst + e.0, off := e.1, mem := s.mem + Numbered(ops, s.lastSeq + 1), lastSeq := s.lastSeq + |ops|,
       batches := s.batches + [Batch(s.lastSeq + 1, ops)])
  }

  lemma WriteKeeps(crc: Crc, s: State, ops: seq<BatchOp>)
    requires Consistent(crc, s) && s.off <= BLOCK_SIZE && Fits(Batch(s.lastSeq + 1, ops))
    ensures Consistent(crc, Written(crc, s, ops))
    ensures Stored(Written(crc, s, ops)) == Stored(s) + Numbered(ops, s.lastSeq + 1)
  {
    hide LogHolds, Rising, AllOf, AllEntries, MaxSeq, Concat, BatchBytes, Emit, OldLogs, Numbered;
    var b := Batch(s.lastSeq + 1, ops);
    LogGrows(crc, s.dst, s.off, s.batches, b);
    RisingNumbered(Stored(s), ops, s.lastSeq);
    BatchAppends(s.batches, b);
    Regroup(AllOf(s.tables), s.mem, Numbered(ops, s.lastSeq + 1));
    var t := Written(crc, s, ops);
    assert t.lastSeq == Known(t.manifestSeq, t.oldBatches, t.batches);
  }

  /** The state after opening from a last log `disk` that replays to `bs`. */
  ghost function Reopened(s: State, disk: bytes, bs: seq<Logged>, r: Recovered): State {
    var lastSeq := Max(s.manifestSeq, r.maxSeq);
    State(
      if r.kept then disk else [], if r.kept then |disk| % BLOCK_SIZE else 0,
      if r.save then [] else if r.kept then s.oldLogs else s.oldLogs + [disk],
      r.mem, s.tables + r.tables, lastSeq, if r.save then lastSeq else s.manifestSeq,
      if r.kept then bs else [],
      if r.save then [] else if r.kept then s.oldBatches else s.oldBatches + [bs])
  }

  /** A writer opened at the end of the log can write on behind these batches. */
  ghost predicate Reusable(crc: Crc, disk: bytes, bs: seq<Logged>) {
    AllFit(bs) && Stage(crc, disk, |disk| % BLOCK_SIZE, Records(bs))
  }

  /** What recovery promises of a database's logs. */
  ghost predicate RecoveredFrom(oldBatches: seq<seq<Logged>>, bs: seq<Logged>, r: Recovered) {
    && AllOf(r.tables) + r.mem == AllEntries(bs)
    && r.maxSeq == Max(MaxSeq(Concat(oldBatches)), MaxSeq(bs))
    && (r.kept ==> AllOf(r.tables) == [] && r.mem == AllEntries(bs))
    && (!r.kept ==> r.mem == [])
    && (r.tables != [] ==> r.save)
  }

  lemma ReopenStores(s: State, disk: bytes, bs: seq<Logged>, r: Recovered)
    requires RecoveredFrom(s.oldBatches, bs, r)
    ensures Stored(Reopened(s, disk, bs, r)) == AllOf(s.tables) + AllEntries(bs)
    ensures AllOf(s.tables + r.tables) == AllOf(s.tables) + AllOf(r.tables)
  {
    AllOfAppend(s.tables, r.tables);
    hide AllOf, AllEntries, MaxSeq, Concat;
  }

  lemma ReopenKeeps(crc: Crc, s: State, disk: bytes, bs: seq<Logged>, r: Recovered)
    requires Consistent(crc, s) && bs <= s.batches && Replays(crc, disk, bs) && (r.kept ==> Reusable(crc, disk, bs))
    requires RecoveredFrom(s.oldBatches, bs, r)
    ensures Consistent(crc, Reopened(s, disk, bs, r))
  {
    var t := Reopened(s, disk, bs, r);
    ReopenStores(s, disk, bs, r);
    ReopenKeepsLogs(crc, s, disk, bs, r);
    PrefixRises(AllOf(s.tables), s.batches, bs, s.lastSeq);
    StoredRises(AllOf(s.tables), bs, s.manifestSeq, s.lastSeq, t.lastSeq);
    ReopenKnows(s, disk, bs, r);
    hide LogHolds, Rising, AllOf, AllEntries, MaxSeq, Concat, OldLogs, Known;
    assert AllOf(t.tables) == AllOf(s.tables) + AllOf(r.tables);
    if r.kept {
      assert AllOf(t.tables) == AllOf(s.tables);
    } else {
      assert AllOf(t.tables) == AllOf(t.tables) + t.mem;
      if !r.save {
        NoTables(r.tables);
        assert AllOf(t.tables) == AllOf(s.tables);
      }
    }
  }

  lemma ReopenKnows(s: State, disk: bytes, bs: seq<Logged>, r: Recovered)
    requires RecoveredFrom(s.oldBatches, bs, r)
    ensures var t := Reopened(s, disk, bs, r);
      t.lastSeq == Known(t.manifestSeq, t.oldBatches, t.batches) == Known(s.manifestSeq, s.oldBatches, bs)
  {
    NoLogs([]);
    NothingYet([]);
    LastLog(s.oldBatches, bs);
    hide AllOf, AllEntries, MaxSeq, Concat;
  }

  lemma ReopenKeepsLogs(crc: Crc, s: State, disk: bytes, bs: seq<Logged>, r: Recovered)
    requires OldLogs(crc, s.oldLogs, s.oldBatches) && Replays(crc, disk, bs) && (r.kept ==> Reusable(crc, disk, bs))
    requires RecoveredFrom(s.oldBatches, bs, r)
    ensures var t := Reopened(s, disk, bs, r);
            && OldLogs(crc, t.oldLogs, t.oldBatches)
            && LogHolds(crc, t.dst, t.off, t.batches)
            && t.mem == AllEntries(t.batches)
  {
    EmptyLogHolds(crc);
    NoLogs([]);
    NothingYet([]);
    LastLog(s.oldBatches, bs);
    NoTables(r.tables);
    if r.kept {
      ReopenedHolds(crc, disk, bs);
    }
    hide LogHolds, AllOf, AllEntries, MaxSeq, Concat, Replays, Reusable;
  }

  lemma ReopenSpoils(crc: Crc, s: State, disk: bytes, bs: seq<Logged>, r: Recovered)
    requires r.kept && !Reusable(crc, disk, bs)
    ensures !Consistent(crc, Reopened(s, disk, bs, r))
  {
    hide Stage;
  }

  lemma OldLogsConsistent(crc: Crc, s: State)
    requires Consistent(crc, s)
    ensures OldLogs(crc, s.oldLogs, s.oldBatches)
  {
  }

  class Db {
    const crc: Crc
    var log: LogWriter
    var oldLogs: seq<bytes>
    var mem: seq<Entry>
    var tables: seq<seq<Entry>>
    var lastSeq: nat
    var manifestSeq: nat
    ghost var batches: seq<Logged>
    ghost var oldBatches: seq<seq<Logged>>

    ghost function Abs(): State
      reads this, log
    {
      State(log.dst, log.currentBlockOffset, oldLogs, mem, tables, lastSeq, manifestSeq, batches, oldBatches)
    }

    ghost predicate Valid()
      reads this, log
    {
      log.Valid() && log.blockSize == BLOCK_SIZE && log.crc == crc && Consistent(crc, Abs())
    }

    constructor (crc: Crc)
      ensures Valid() && fresh(log) && this.crc == crc && Stored(Abs()) == [] && lastSeq == 0
    {
      this.crc := crc;
      log := new LogWriter(crc, BLOCK_SIZE);
      oldLogs, mem, tables, lastSeq, manifestSeq := [], [], [], 0, 0;
      batches, oldBatches := [], [];
      new;
      EmptyLogHolds(crc);
    }

    /** Retires a memtable that is too big: it becomes a table, and a new log takes over from all older ones. */
    method MakeRoom(full: bool)
      requires Valid()
      modifies this
      ensures Valid() && (log == old(log) || fresh(log))
      ensures Abs() == if full && old(mem) != [] then Rotated(old(Abs())) else old(Abs())
      ensures full && old(mem) != [] ==>
                tables == old(tables) + [old(mem)] && mem == [] && log.dst == [] && oldLogs == []
    {
      hide Consistent;
      RotateKeeps(crc, Abs());
      if full && mem != [] {
        log := new LogWriter(crc, BLOCK_SIZE);
        tables := tables + [mem];
        mem, batches := [], [];
        oldLogs, oldBatches := [], [];
        manifestSeq := lastSeq;
      }
    }

    /** Logs a batch and adds it to the memtable, under the numbers after the last one. */
    method Append(batch: WriteBatch)
      requires Valid() && batch.Valid()
      requires lastSeq < MAX_SEQUENCE_NUMBER && lastSeq + |batch.ops| <= MAX_SEQUENCE_NUMBER
      modifies this, log, batch
      ensures Valid() && log == old(log) && Abs() == Written(crc, old(Abs()), old(batch.ops))
      ensures Stored(Abs()) == old(Stored(Abs())) + Numbered(old(batch.ops), old(lastSeq) + 1)
    {
      hide Consistent, Stored, BatchBytes, Emit, Carries, Numbered;
      ghost var s, ops := Abs(), batch.ops;
      WriteKeeps(crc, s, ops);
      var entries := batch.Count();
      var next := lastSeq + 1;
      var added := batch.InsertIntoMemtable(next);
      mem := mem + added;
      var record := batch.Encode(next);
      var _ := log.AddRecord(record);
      lastSeq := lastSeq + entries;
      batches := batches + [Batch(next, ops)];
      assert Abs() == Written(crc, s, ops);
    }

    method Write(batch: WriteBatch, full: bool)
      requires Valid() && batch.Valid()
      requires lastSeq < MAX_SEQUENCE_NUMBER && lastSeq + |batch.ops| <= MAX_SEQUENCE_NUMBER
      modifies this, log, batch
      ensures Valid() && (log == old(log) || fresh(log))
      ensures Stored(Abs()) == old(Stored(Abs())) + Numbered(old(batch.ops), old(lastSeq) + 1)
      ensures lastSeq == old(lastSeq) + |old(batch.ops)|
      ensures var retired := full && old(mem) != [];
        && tables == (if retired then old(tables) + [old(mem)] else old(tables))
        && mem == (if retired then [] else old(mem)) + Numbered(old(batch.ops), old(lastSeq) + 1)
        && batches == (if retired then [] else old(batches)) + [Batch(old(lastSeq) + 1, old(batch.ops))]
    {
      hide Consistent, Stored, BatchBytes, Emit, Carries, Numbered;
      RotateKeeps(crc, Abs());
      MakeRoom(full);
      Append(batch);
    }

    /**
      Opens the database again from the older logs and a last log that replays to some of the batches
      written to it. It stays good for later writes unless the last log is used on and cannot be.
     */
    method RecoverFrom(disk: bytes, ghost bs: seq<Logged>, big: seq<Entry> -> bool, reuseLogs: bool, mustSave: bool)
      returns (kept: bool)
      requires Valid() && bs <= batches && Replays(crc, disk, bs)
      modifies this
      ensures fresh(log) && (kept <==> reuseLogs && NeverBig(bs, big, 0, |bs|))
      ensures Valid() <==> (kept ==> Reusable(crc, disk, bs))
      ensures Stored(Abs()) == old(AllOf(tables)) + AllEntries(bs)
      ensures lastSeq == Known(old(manifestSeq), old(oldBatches), bs)
      ensures kept ==> log.dst == disk && log.currentBlockOffset == |disk| % BLOCK_SIZE && batches == bs
    {
      hide Consistent, Stored, Known, RecoveredFrom, AllOf, AllEntries, Replays, Reusable, OldLogs;
      ghost var s := Abs();
      OldLogsConsistent(crc, s);
      var r := RecoverLogs(disk, bs, big, reuseLogs, mustSave);
      if r.kept ==> Reusable(crc, disk, bs) {
        ReopenKeeps(crc, s, disk, bs, r);
      } else {
        ReopenSpoils(crc, s, disk, bs, r);
      }
      ReopenStores(s, disk, bs, r);
      ReopenKnows(s, disk, bs, r);
      lastSeq := Max(manifestSeq, r.maxSeq);
      tables := tables + r.tables;
      mem := r.mem;
      if r.save {
        manifestSeq := lastSeq;
        oldLogs, oldBatches := [], [];
      } else if !r.kept {
        oldLogs, oldBatches := oldLogs + [disk], oldBatches + [bs];
      }
      if r.kept {
        log := new LogWriter.WithOff(crc, disk);
        batches := bs;
      } else {
        log := new LogWriter(crc, BLOCK_SIZE);
        batches := [];
      }
      kept := r.kept;
      assert Abs() == Reopened(s, disk, bs, r);
    }

    method RecoverLogs(disk: bytes, ghost bs: seq<Logged>, big: seq<Entry> -> bool, reuseLogs: bool, mustSave: bool)
      returns (r: Recovered)
      requires OldLogs(crc, oldLogs, oldBatches) && Replays(crc, disk, bs)
      ensures r.kept <==> reuseLogs && NeverBig(bs, big, 0, |bs|)
      ensures mustSave ==> r.save
      ensures RecoveredFrom(oldBatches, bs, r)
    {
      hide AllOf, AllEntries, Replays, Concat, MaxSeq;
      ghost var bss := oldBatches + [bs];
      LastLog(oldBatches, bs);
      assert forall i :: 0 <= i < |bss| ==> Replays(crc, (oldLogs + [disk])[i], bss[i]);
      assert bss[..|bss| - 1] == oldBatches && bss[|bss| - 1] == bs;
      r := Recover(crc, oldLogs + [disk], big, reuseLogs, mustSave, bss);
    }

    /**
      A clean restart, whether the log is used on or not, changes neither the contents nor the last sequence
      number.
     */
    method Reopen(big: seq<Entry> -> bool, reuseLogs: bool, mustSave: bool)
      requires Valid()
      modifies this
      ensures Valid() && fresh(log)
      ensures Stored(Abs()) == old(Stored(Abs())) && lastSeq == old(lastSeq)
    {
      CleanLog(crc, Abs());
      hide Consistent, Replays, Reusable, AllOf, AllEntries, Known;
      var _ := RecoverFrom(log.dst, batches, big, reuseLogs, mustSave);
    }

    /**
      A crash while the batch is being logged, after `m` fragments of its record if it has more,
      followed by a restart: that batch is lost as a whole and nothing else, with or without log
      reuse. The database stays good for later writes exactly unless the log is used on with some of
      the record's bytes left in it.
     */
    method Crash(batch: WriteBatch, full: bool, m: nat, padded: bool, big: seq<Entry> -> bool, reuseLogs: bool,
                 mustSave: bool)
      returns (left: nat, kept: bool)
      requires Valid() && batch.Valid()
      requires lastSeq < MAX_SEQUENCE_NUMBER && lastSeq + |batch.ops| <= MAX_SEQUENCE_NUMBER
      modifies this, batch
      ensures Stored(Abs()) == old(Stored(Abs())) && lastSeq == old(lastSeq)
      ensures var bs := if full && old(mem) != [] then [] else old(batches);
        kept <==> reuseLogs && NeverBig(bs, big, 0, |bs|)
      ensures Valid() <==> !(kept && left > 0)
      ensures fresh(log)
      ensures kept ==> Glues(crc, log.dst, log.currentBlockOffset, batches, left)
    {
      hide Consistent, Stored, BatchBytes, Emit, Carries, Incomplete, FirstFragments, Taken, Glues, Replays;
      RotateKeeps(crc, Abs());
      MakeRoom(full);
      var record := batch.Encode(lastSeq + 1);
      var off := log.currentBlockOffset;
      var n := if Incomplete(BLOCK_SIZE, off, |record|, m) then m else 0;
      NoneIsIncomplete(off, |record|);
      var disk := log.dst + FirstFragments(crc, BLOCK_SIZE, off, record, true, n, padded);
      left := Taken(BLOCK_SIZE, off, |record|, n);
      CutRecovers(crc, Abs(), record, n, padded);
      hide Reusable, AllOf, AllEntries, Known;
      kept := RecoverFrom(disk, batches, big, reuseLogs, mustSave);
    }
  }

  lemma NoneIsIncomplete(off: nat, n: nat)
    requires off <= BLOCK_SIZE
    ensures Incomplete(BLOCK_SIZE, off, n, 0)
  {
  }

  lemma CleanLog(crc: Crc, s: State)
    requires Consistent(crc, s)
    ensures Replays(crc, s.dst, s.batches) && Reusable(crc, s.dst, s.batches)
    ensures Stored(s) == AllOf(s.tables) + AllEntries(s.batches)
            && s.lastSeq == Known(s.manifestSeq, s.oldBatches, s.batches)
  {
    hide Stage, AllOf, AllEntries, Rising, OldLogs, Known, Replays;
    HeldLogReplays(crc, s.dst, s.off, s.batches);
    AlikeByRemainder(s.off, |s.dst| % BLOCK_SIZE);
    StageAlike(crc, s.dst, s.off, |s.dst| % BLOCK_SIZE, Records(s.batches));
  }

  /** Whatever is logged next is read back with `left` bytes in front of it. */
  ghost predicate Glues(crc: Crc, dst: bytes, off: nat, bs: seq<Logged>, left: nat) {
    AllFit(bs) && off <= BLOCK_SIZE && exists rest :: |rest| == left && GluesTo(crc, dst, off, bs, rest)
  }

  ghost predicate GluesTo(crc: Crc, dst: bytes, off: nat, bs: seq<Logged>, rest: bytes)
    requires AllFit(bs) && off <= BLOCK_SIZE
  {
    forall next: bytes :: next != [] ==>
      ReadsGlued(crc, dst + Emit(crc, BLOCK_SIZE, off, next, true).0, Records(bs), rest + next)
  }

  ghost predicate ReadsGlued(crc: Crc, src: bytes, rs: seq<bytes>, last: bytes) {
    ReadLog(crc, BLOCK_SIZE, true, src, START) == (rs + [last], Eof)
  }

  /** What recovery needs of a log cut inside the record of a batch, and whether that log can be used on. */
  lemma CutRecovers(crc: Crc, s: State, record: bytes, m: nat, padded: bool)
    requires Consistent(crc, s) && s.off <= BLOCK_SIZE && Incomplete(BLOCK_SIZE, s.off, |record|, m)
    ensures var disk := s.dst + FirstFragments(crc, BLOCK_SIZE, s.off, record, true, m, padded);
      && Replays(crc, disk, s.batches)
      && (Reusable(crc, disk, s.batches) <==> Taken(BLOCK_SIZE, s.off, |record|, m) == 0)
      && Glues(crc, disk, |disk| % BLOCK_SIZE, s.batches, Taken(BLOCK_SIZE, s.off, |record|, m))
    ensures Stored(s) == AllOf(s.tables) + AllEntries(s.batches)
            && s.lastSeq == Known(s.manifestSeq, s.oldBatches, s.batches)
  {
    hide Stage, AllOf, AllEntries, Rising, OldLogs, Known, Records, FirstFragments, Taken, Incomplete, ReadLog, Emit;
    var rs := Records(s.batches);
    RecordsEncode(s.batches);
    CutReads(crc, s.dst, s.off, rs, record, m, padded);
    CutLogReusable(crc, s.dst, s.off, rs, record, m, padded);
    var disk := s.dst + FirstFragments(crc, BLOCK_SIZE, s.off, record, true, m, padded);
    var x := Taken(BLOCK_SIZE, s.off, |record|, m);
    forall next: bytes | next != []
      ensures ReadsGlued(crc, disk + Emit(crc, BLOCK_SIZE, |disk| % BLOCK_SIZE, next, true).0, rs, record[..x] + next)
    {
      CutGlues(crc, s.dst, s.off, rs, record, m, padded, next);
    }
    assert GluesTo(crc, disk, |disk| % BLOCK_SIZE, s.batches, record[..x]);
  }

  // ----- whole runs

  /**
    What happens to a database: a batch is written, with or without the memtable being full; it is
    opened again; or it crashes while a batch is being logged and is opened again.
   */
  datatype Event =
    | Writes(ops: seq<BatchOp>, full: bool)
    | Restart(reuseLogs: bool, mustSave: bool)
    | Crashes(ops: seq<BatchOp>, full: bool, fragments: nat, padded: bool, reuseLogs: bool, mustSave: bool)

  /** The operations that an event adds. */
  function Added(e: Event): seq<BatchOp> {
    if e.Writes? then e.ops else []
  }

  /** All operations of a run that were written completely, in order. */
  ghost function OpsOf(events: seq<Event>): seq<BatchOp> {
    if events == [] then [] else OpsOf(events[..|events| - 1]) + Added(events[|events| - 1])
  }

  method MakeBatch(ops: seq<BatchOp>) returns (batch: WriteBatch)
    requires |ops| < U32_LIMIT
    ensures fresh(batch) && batch.Valid() && batch.ops == ops
  {
    hide Carries;
    batch := new WriteBatch();
    for i := 0 to |ops|
      invariant fresh(batch) && batch.Valid() && batch.ops == ops[..i]
    {
      match ops[i] {
        case Put(k, v) => batch.Put(k, v);
        case Delete(k) => batch.Delete(k);
      }
    }
  }

  lemma {:induction false} OpsOneMore(events: seq<Event>, i: nat)
    requires i < |events|
    ensures OpsOf(events[..i + 1]) == OpsOf(events[..i]) + Added(events[i])
    ensures |OpsOf(events[..i + 1])| <= |OpsOf(events)|
    decreases |events|
  {
    assert events[..i + 1][..i] == events[..i];
    if i + 1 < |events| {
      var front := events[..|events| - 1];
      OpsOneMore(front, i);
      assert front[..i + 1] == events[..i + 1] && front[..i] == events[..i];
    } else {
      assert events[..i + 1] == events;
    }
  }

  lemma NumberedAppend(a: seq<BatchOp>, b: seq<BatchOp>)
    ensures Numbered(a + b, 1) == Numbered(a, 1) + Numbered(b, |a| + 1)
  {
  }

  /** The events whose batches have to be numbered. */
  ghost predicate Batches(events: seq<Event>) {
    && (forall i :: 0 <= i < |events| && !events[i].Restart? ==> |events[i].ops| < U32_LIMIT)
    && (forall i :: 0 <= i < |events| && !events[i].Restart? ==>
          |OpsOf(events[..i])| < MAX_SEQUENCE_NUMBER && |OpsOf(events[..i])| + |events[i].ops| <= MAX_SEQUENCE_NUMBER)
  }

  /** An event can be numbered after `n` operations. */
  ghost predicate HasRoom(e: Event, n: nat) {
    e.Restart? || (|e.ops| < U32_LIMIT && n < MAX_SEQUENCE_NUMBER && n + |e.ops| <= MAX_SEQUENCE_NUMBER)
  }

  /** One event adds its operations, unless a log with bytes of a cut record in it goes on being used. */
  method Happen(db: Db, e: Event, big: seq<Entry> -> bool) returns (spoiled: bool)
    requires db.Valid() && HasRoom(e, db.lastSeq)
    modifies db, db.log
    ensures fresh(db.log) || (e.Writes? && db.log == old(db.log))
    ensures spoiled ==> !db.Valid() && e.Crashes? && e.reuseLogs && Stored(db.Abs()) == old(Stored(db.Abs()))
    ensures !spoiled ==> db.Valid() && db.lastSeq == old(db.lastSeq) + |Added(e)|
    ensures !spoiled ==> Stored(db.Abs()) == old(Stored(db.Abs())) + Numbered(Added(e), old(db.lastSeq) + 1)
  {
    hide Consistent, Stored, Carries, Glues, Numbered;
    NumbersNothing(old(db.lastSeq) + 1);
    spoiled := false;
    match e {
      case Writes(ops, full) =>
        var batch := MakeBatch(ops);
        db.Write(batch, full);
      case Restart(reuseLogs, mustSave) =>
        db.Reopen(big, reuseLogs, mustSave);
      case Crashes(ops, full, fragments, padded, reuseLogs, mustSave) =>
        var batch := MakeBatch(ops);
        var left, kept := db.Crash(batch, full, fragments, padded, big, reuseLogs, mustSave);
        spoiled := kept && left > 0;
    }
  }

  lemma NumbersNothing(n: nat)
    ensures Numbered([], n) == []
  {
  }

  /**
    Over every run of writes, memtable rotations, restarts and crashes, the database holds exactly
    the operations written completely, each once, in order, numbered from 1 without gaps; unless,
    at event `spoiled`, it went on using a log with bytes of a cut record in it, which takes a crash
    followed by a restart with log reuse.
   */
  method Session(crc: Crc, events: seq<Event>, big: seq<Entry> -> bool) returns (db: Db, spoiled: Option<nat>)
    requires Batches(events)
    ensures spoiled.None? ==>
              db.Valid() && Stored(db.Abs()) == Numbered(OpsOf(events), 1) && db.lastSeq == |OpsOf(events)|
    ensures spoiled.Some? ==>
              !db.Valid() && spoiled.value < |events|
              && events[spoiled.value].Crashes? && events[spoiled.value].reuseLogs
              && Stored(db.Abs()) == Numbered(OpsOf(events[..spoiled.value]), 1)
  {
    hide Consistent, Stored, Numbered, OpsOf, Added, HasRoom;
    db := new Db(crc);
    NoOps(events);
    for i := 0 to |events|
      invariant fresh(db) && fresh(db.log) && db.Valid()
      invariant Stored(db.Abs()) == Numbered(OpsOf(events[..i]), 1) && db.lastSeq == |OpsOf(events[..i])|
    {
      OpsOneMore(events, i);
      RoomFor(events, i);
      NumberedAppend(OpsOf(events[..i]), Added(events[i]));
      var bad := Happen(db, events[i], big);
      if bad {
        return db, Some(i);
      }
    }
    assert events[..|events|] == events;
    spoiled := None;
  }

  lemma RoomFor(events: seq<Event>, i: nat)
    requires Batches(events) && i < |events|
    ensures HasRoom(events[i], |OpsOf(events[..i])|)
  {
  }

  lemma NoOps(events: seq<Event>)
    ensures OpsOf(events[..0]) == [] && Numbered([], 1) == []
  {
  }
}
