/** Writing through the log, and rebuilding memtable, tables and sequence number from the logs on opening. */
module Recovery {
  import opened Order
  import opened Codec
  import opened Versions
  import opened Log
  import opened LogProofs
  import opened WriteBatches

  // ----- what the logs hold

  /** A log record: too short to be a batch, or a batch with the sequence number of its first operation. */
  datatype Logged = Short | Batch(first: nat, ops: seq<BatchOp>)

  ghost function EntriesOf(b: Logged): seq<Entry> {
    match b case Short => [] case Batch(first, ops) => Numbered(ops, first)
  }

  /** The last sequence number of a batch; one below its own for an empty one. */
  ghost function LastOf(b: Logged): int {
    match b case Short => 0 case Batch(first, ops) => first + |ops| - 1
  }

  ghost function AllEntries(bs: seq<Logged>): seq<Entry> {
    if bs == [] then [] else AllEntries(bs[..|bs| - 1]) + EntriesOf(bs[|bs| - 1])
  }

  function Max(a: int, b: int): int {
    if a < b then b else a
  }

  ghost function MaxSeq(bs: seq<Logged>): nat {
    if bs == [] then 0 else Max(MaxSeq(bs[..|bs| - 1]), LastOf(bs[|bs| - 1]))
  }

  ghost predicate Encodes(r: bytes, b: Logged) {
    match b
    case Short => 0 < |r| < 12
    case Batch(first, ops) => Fits(b) && r == BatchBytes(first, ops)
  }

  /** A batch whose numbers fit their fields. */
  ghost predicate Fits(b: Logged) {
    b.Batch? && 1 <= b.first && b.first + |b.ops| <= MAX_SEQUENCE_NUMBER + 1 && b.first <= MAX_SEQUENCE_NUMBER
        && |b.ops| < U32_LIMIT
  }

  ghost predicate EncodeAllOf(rs: seq<bytes>, bs: seq<Logged>) {
    |rs| == |bs| && forall i :: 0 <= i < |rs| ==> Encodes(rs[i], bs[i])
  }

  /** Reading the log file returns these batches, whatever stops the reading. */
  ghost predicate Replays(crc: Crc, src: bytes, bs: seq<Logged>) {
    EncodeAllOf(ReadLog(crc, BLOCK_SIZE, true, src, START).0, bs)
  }

  function AllOf(tables: seq<seq<Entry>>): seq<Entry> {
    if tables == [] then [] else AllOf(tables[..|tables| - 1]) + tables[|tables| - 1]
  }

  ghost function Concat(bss: seq<seq<Logged>>): seq<Logged> {
    if bss == [] then [] else Concat(bss[..|bss| - 1]) + bss[|bss| - 1]
  }

  lemma {:induction false} AllEntriesAppend(a: seq<Logged>, b: seq<Logged>)
    ensures AllEntries(a + b) == AllEntries(a) + AllEntries(b)
    decreases |b|
  {
    hide EntriesOf;
    if b == [] {
      assert a + b == a;
    } else {
      var n := |b| - 1;
      AllEntriesAppend(a, b[..n]);
      assert (a + b)[..|a + b| - 1] == a + b[..n];
      Regroup(AllEntries(a), AllEntries(b[..n]), EntriesOf(b[n]));
    }
  }

  lemma {:induction false} MaxSeqAppend(a: seq<Logged>, b: seq<Logged>)
    ensures MaxSeq(a + b) == Max(MaxSeq(a), MaxSeq(b))
    decreases |b|
  {
    hide LastOf;
    if b == [] {
      assert a + b == a;
    } else {
      var n := |b| - 1;
      MaxSeqAppend(a, b[..n]);
      assert (a + b)[..|a + b| - 1] == a + b[..n];
    }
  }

  lemma {:induction false} AllOfAppend(tables: seq<seq<Entry>>, more: seq<seq<Entry>>)
    ensures AllOf(tables + more) == AllOf(tables) + AllOf(more)
    decreases |more|
  {
    if more == [] {
      assert tables + more == tables;
    } else {
      var n := |more| - 1;
      AllOfAppend(tables, more[..n]);
      assert (tables + more)[..|tables + more| - 1] == tables + more[..n];
    }
  }

  lemma AllOfOne(t: seq<Entry>)
    ensures AllOf([t]) == t
  {
    assert [t][..0] == [];
  }

  lemma OneMore(bs: seq<Logged>, i: nat)
    requires i < |bs|
    ensures AllEntries(bs[..i + 1]) == AllEntries(bs[..i]) + EntriesOf(bs[i])
    ensures MaxSeq(bs[..i + 1]) == Max(MaxSeq(bs[..i]), LastOf(bs[i]))
  {
    hide EntriesOf, LastOf;
    assert bs[..i + 1][..i] == bs[..i];
  }

  /** No entry of a log has a sequence number above the greatest. */
  lemma {:induction false} SequencesBelowMax(bs: seq<Logged>)
    ensures forall j :: 0 <= j < |AllEntries(bs)| ==> AllEntries(bs)[j].sn <= MaxSeq(bs)
  {
    if bs != [] {
      SequencesBelowMax(bs[..|bs| - 1]);
    }
  }

  // ----- one log file

  /** The whole of recovering one log: what it adds, and whether the log goes on being used. */
  datatype Recovered = Recovered(tables: seq<seq<Entry>>, mem: seq<Entry>, kept: bool, save: bool, maxSeq: nat)

  /** Writing a memtable out adds a table unless it is empty. */
  function WriteTable(tables: seq<seq<Entry>>, mem: seq<Entry>): seq<seq<Entry>> {
    if mem == [] then tables else tables + [mem]
  }

  lemma WriteTableHolds(tables: seq<seq<Entry>>, mem: seq<Entry>)
    ensures AllOf(WriteTable(tables, mem)) == AllOf(tables) + mem
  {
    if mem != [] {
      AllOfAppend(tables, [mem]);
      AllOfOne(mem);
    }
  }

  lemma NextRecord(crc: Crc, src: bytes, st: ReaderState)
    requires Reading(src, st)
    ensures var (res, s) := ReadOne(crc, BLOCK_SIZE, true, src, st, []);
            var rs := ReadLog(crc, BLOCK_SIZE, true, src, st).0;
            if res.Record? then rs == [res.data] + ReadLog(crc, BLOCK_SIZE, true, src, s).0 else rs == []
  {
    hide ReadOne;
  }

  /** Puts the operations of a logged batch under the sequence numbers it was logged with. */
  method ReplayBatch(batch: WriteBatch, data: bytes, ghost b: Logged) returns (added: seq<Entry>, lastSeq: int)
    requires |data| >= 12 && Encodes(data, b)
    modifies batch
    ensures added == EntriesOf(b) && lastSeq == LastOf(b)
  {
    LongRecord(data, b);
    hide BatchBytes, Carries, DecodeFixed, Numbered;
    batch.SetContents(data, b.ops);
    var first := batch.Sequence();
    added := batch.InsertIntoMemtable(first);
    var count := batch.Count();
    lastSeq := first + count - 1;
  }

  /** After the batches from `a` up to `j` the memtable is found too big; records that are too short do not ask. */
  ghost predicate BigAt(bs: seq<Logged>, big: seq<Entry> -> bool, a: nat, j: nat)
    requires a <= j <= |bs|
  {
    a < j && !bs[j - 1].Short? && big(AllEntries(bs[a..j]))
  }

  ghost predicate NeverBig(bs: seq<Logged>, big: seq<Entry> -> bool, a: nat, n: nat)
    requires a <= n <= |bs|
  {
    forall j :: a < j <= n ==> !BigAt(bs, big, a, j)
  }

  /**
    Where the memtable is written out among the first `n` batches: each time as soon as it is too big, and since the
    last time it has not been.
   */
  ghost predicate CutAt(bs: seq<Logged>, big: seq<Entry> -> bool, cuts: seq<nat>, n: nat) {
    && cuts != [] && cuts[0] == 0 && n <= |bs| && Rises(cuts, n)
    && (forall k :: 0 < k < |cuts| ==> FirstBig(bs, big, cuts[k - 1], cuts[k]))
    && NeverBig(bs, big, cuts[|cuts| - 1], n)
  }

  ghost predicate Rises(cuts: seq<nat>, n: nat) {
    forall i, j :: 0 <= i <= j < |cuts| ==> cuts[i] <= cuts[j] <= n
  }

  ghost predicate FirstBig(bs: seq<Logged>, big: seq<Entry> -> bool, a: nat, j: nat) {
    a < j <= |bs| && BigAt(bs, big, a, j) && NeverBig(bs, big, a, j - 1)
  }

  /** The entries of the batches from `a` up to `z`. */
  ghost function Segment(bs: seq<Logged>, a: nat, z: nat): seq<Entry> {
    if a <= z <= |bs| then AllEntries(bs[a..z]) else []
  }

  /** The tables written at the cuts. */
  ghost function TablesAt(bs: seq<Logged>, cuts: seq<nat>): seq<seq<Entry>>
    requires cuts != []
  {
    var k := |cuts| - 1;
    if k == 0 then [] else WriteTable(TablesAt(bs, cuts[..k]), Segment(bs, cuts[k - 1], cuts[k]))
  }

  /** How far the replay of a log has come. */
  datatype Progress = Progress(tables: seq<seq<Entry>>, mem: seq<Entry>, compactions: nat, maxSeq: nat, save: bool)

  ghost predicate Replayed(p: Progress, bs: seq<Logged>, n: nat, big: seq<Entry> -> bool, cuts: seq<nat>) {
    && CutAt(bs, big, cuts, n) && p.compactions == |cuts| - 1 && (p.save <==> |cuts| > 1)
    && p.tables == TablesAt(bs, cuts) && p.mem == AllEntries(bs[cuts[|cuts| - 1]..n])
    && AllOf(p.tables) + p.mem == AllEntries(bs[..n]) && p.maxSeq == MaxSeq(bs[..n])
  }

  /** Replays one record; a memtable that has become too big is written out. */
  method ReplayRecord(batch: WriteBatch, p: Progress, data: bytes, big: seq<Entry> -> bool, ghost bs: seq<Logged>,
                      ghost n: nat, ghost cuts: seq<nat>)
    returns (q: Progress, ghost cuts': seq<nat>)
    requires n < |bs| && Replayed(p, bs, n, big, cuts) && Encodes(data, bs[n])
    modifies batch
    ensures Replayed(q, bs, n + 1, big, cuts')
    ensures cuts' == if BigAt(bs, big, cuts[|cuts| - 1], n + 1) then cuts + [n + 1] else cuts
  {
    hide AllEntries, AllOf, MaxSeq, EntriesOf, LastOf, Encodes, TablesAt;
    OneMore(bs, n);
    OneMoreFrom(bs, cuts[|cuts| - 1], n);
    cuts' := cuts;
    if |data| < 12 {
      ShortRecord(data, bs[n]);
      StaysSmall(bs, big, cuts, n);
      q := p;
      return;
    }
    LongRecord(data, bs[n]);
    var added, lastSeq := ReplayBatch(batch, data, bs[n]);
    var mem := p.mem + added;
    Regroup(AllOf(p.tables), p.mem, added);
    var maxSeq := if lastSeq > p.maxSeq then lastSeq else p.maxSeq;
    if big(mem) {
      WriteTableHolds(p.tables, mem);
      CutsHere(bs, big, cuts, n);
      TableCut(bs, cuts, n + 1);
      NoEntries(bs, n + 1);
      cuts' := cuts + [n + 1];
      q := Progress(WriteTable(p.tables, mem), [], p.compactions + 1, maxSeq, true);
    } else {
      StaysSmall(bs, big, cuts, n);
      q := Progress(p.tables, mem, p.compactions, maxSeq, p.save);
    }
  }

  lemma StaysSmall(bs: seq<Logged>, big: seq<Entry> -> bool, cuts: seq<nat>, n: nat)
    requires n < |bs| && CutAt(bs, big, cuts, n) && !BigAt(bs, big, cuts[|cuts| - 1], n + 1)
    ensures CutAt(bs, big, cuts, n + 1)
  {
  }

  lemma CutsHere(bs: seq<Logged>, big: seq<Entry> -> bool, cuts: seq<nat>, n: nat)
    requires n < |bs| && CutAt(bs, big, cuts, n) && BigAt(bs, big, cuts[|cuts| - 1], n + 1)
    ensures CutAt(bs, big, cuts + [n + 1], n + 1)
  {
    var all := cuts + [n + 1];
    assert FirstBig(bs, big, cuts[|cuts| - 1], n + 1);
    hide BigAt;
    forall k | 0 < k < |all| ensures FirstBig(bs, big, all[k - 1], all[k]) {
      assert k < |cuts| ==> FirstBig(bs, big, cuts[k - 1], cuts[k]);
    }
  }

  lemma TableCut(bs: seq<Logged>, cuts: seq<nat>, n: nat)
    requires cuts != []
    ensures TablesAt(bs, cuts + [n]) == WriteTable(TablesAt(bs, cuts), Segment(bs, cuts[|cuts| - 1], n))
  {
    hide Segment, WriteTable;
    assert (cuts + [n])[..|cuts|] == cuts;
  }

  lemma NoEntries(bs: seq<Logged>, n: nat)
    requires n <= |bs|
    ensures AllEntries(bs[n..n]) == []
  {
  }

  lemma OneMoreFrom(bs: seq<Logged>, a: nat, n: nat)
    requires a <= n < |bs|
    ensures AllEntries(bs[a..n + 1]) == AllEntries(bs[a..n]) + EntriesOf(bs[n])
  {
    hide EntriesOf;
    assert bs[a..n + 1][..n - a] == bs[a..n] && bs[a..n + 1][n - a] == bs[n];
  }

  /**
    Replays a log into a memtable, writing it out exactly each time it has become too big. Every
    entry of every batch ends up in one table or in the memtable that is kept, once and in order.
    The log goes on being used exactly if that is wanted and the memtable never was too big.
   */
  method RecoverLogFile(crc: Crc, src: bytes, big: seq<Entry> -> bool, reuseLogs: bool, isLast: bool,
                        ghost bs: seq<Logged>)
    returns (r: Recovered, ghost cuts: seq<nat>)
    requires Replays(crc, src, bs)
    ensures CutAt(bs, big, cuts, |bs|)
    ensures r.kept <==> reuseLogs && isLast && NeverBig(bs, big, 0, |bs|)
    ensures var rest := AllEntries(bs[cuts[|cuts| - 1]..]);
      && r.mem == (if r.kept then rest else [])
      && r.tables == TablesAt(bs, cuts) + (if r.kept || rest == [] then [] else [rest])
      && (r.save <==> |cuts| > 1 || (!r.kept && rest != []))
    ensures AllOf(r.tables) + r.mem == AllEntries(bs)
    ensures r.maxSeq == MaxSeq(bs)
  {
    hide ReadOne, ReadLog, AllEntries, AllOf, MaxSeq, EntriesOf, LastOf, Encodes, TablesAt;
    ghost var rs := ReadLog(crc, BLOCK_SIZE, true, src, START).0;
    var p := Progress([], [], 0, 0, false);
    var reader := new LogReader(crc, BLOCK_SIZE, src, true);
    var batch := new WriteBatch();
    ghost var n := 0;
    cuts := [0];
    StartsReplay(bs, big);
    assert rs[0..] == rs;
    while true
      invariant reader.Valid() && reader.src == src && reader.crc == crc && reader.blocksize == BLOCK_SIZE
                && reader.checksums
      invariant fresh(reader) && fresh(batch)
      invariant n <= |rs| && ReadLog(crc, BLOCK_SIZE, true, src, reader.st).0 == rs[n..]
      invariant Replayed(p, bs, n, big, cuts)
      decreases |src| - reader.st.pos
    {
      hide Replayed;
      NextRecord(crc, src, reader.st);
      NotEmpty(rs, bs, n);
      var res := reader.Read();
      if !res.Record? || res.data == [] {
        break;
      }
      assert res.data == rs[n] && rs[n..][1..] == rs[n + 1..];
      assert Encodes(res.data, bs[n]);
      p, cuts := ReplayRecord(batch, p, res.data, big, bs, n, cuts);
      n := n + 1;
    }
    assert bs[..n] == bs && bs[cuts[|cuts| - 1]..n] == bs[cuts[|cuts| - 1]..];
    OneCut(bs, big, cuts);
    if reuseLogs && isLast && p.compactions == 0 {
      r := Recovered(p.tables, p.mem, true, p.save, p.maxSeq);
    } else {
      WriteTableHolds(p.tables, p.mem);
      r := Recovered(WriteTable(p.tables, p.mem), [], false, p.save || p.mem != [], p.maxSeq);
    }
  }

  /** There is a cut exactly if the memtable, from the start, once becomes too big. */
  lemma OneCut(bs: seq<Logged>, big: seq<Entry> -> bool, cuts: seq<nat>)
    requires CutAt(bs, big, cuts, |bs|)
    ensures |cuts| == 1 <==> NeverBig(bs, big, 0, |bs|)
    ensures |cuts| == 1 ==> TablesAt(bs, cuts) == []
  {
    if |cuts| > 1 {
      assert FirstBig(bs, big, cuts[0], cuts[1]);
    }
  }

  lemma NothingYet(bs: seq<Logged>)
    ensures AllEntries(bs[..0]) == [] && MaxSeq(bs[..0]) == 0 && AllOf([]) == []
  {
  }

  lemma StartsReplay(bs: seq<Logged>, big: seq<Entry> -> bool)
    ensures Replayed(Progress([], [], 0, 0, false), bs, 0, big, [0])
  {
  }

  lemma NotEmpty(rs: seq<bytes>, bs: seq<Logged>, n: nat)
    requires EncodeAllOf(rs, bs) && n <= |rs|
    ensures n < |rs| ==> rs[n..] != [] && rs[n..][0] != []
  {
  }

  lemma ShortRecord(r: bytes, b: Logged)
    requires |r| < 12 && Encodes(r, b)
    ensures b.Short? && EntriesOf(b) == [] && LastOf(b) == 0
  {
  }

  lemma LongRecord(r: bytes, b: Logged)
    requires |r| >= 12 && Encodes(r, b)
    ensures !b.Short? && Fits(b) && Carries(r, b.ops) && DecodeFixed(r[..8]) == b.first
  {
    BatchCarries(b.first, b.ops);
  }

  // ----- all log files

  /** Replaying a log changed the manifest: the memtable was written out on the way or at the end. */
  ghost predicate Rewritten(bs: seq<Logged>, big: seq<Entry> -> bool, reuse: bool) {
    !NeverBig(bs, big, 0, |bs|) || (!reuse && AllEntries(bs) != [])
  }

  /**
    Replays the live logs, oldest first. Conservation over all of them: tables and memtable together
    hold every logged entry once and in order, and the sequence number found is the greatest logged.
   */
  method Recover(crc: Crc, logs: seq<bytes>, big: seq<Entry> -> bool, reuseLogs: bool, mustSave: bool,
                 ghost bss: seq<seq<Logged>>)
    returns (r: Recovered)
    requires |logs| == |bss| && forall i :: 0 <= i < |logs| ==> Replays(crc, logs[i], bss[i])
    ensures AllOf(r.tables) + r.mem == AllEntries(Concat(bss))
    ensures r.maxSeq == MaxSeq(Concat(bss))
    ensures r.kept <==> reuseLogs && logs != [] && NeverBig(bss[|bss| - 1], big, 0, |bss[|bss| - 1]|)
    ensures r.kept ==>
              && reuseLogs && logs != []
              && AllOf(r.tables) == AllEntries(Concat(bss[..|bss| - 1])) && r.mem == AllEntries(bss[|bss| - 1])
    ensures !r.kept ==> r.mem == []
    ensures mustSave || r.tables != [] ==> r.save
    ensures r.save <==> mustSave || exists i :: 0 <= i < |bss| && Rewritten(bss[i], big, reuseLogs && i == |bss| - 1)
  {
    hide AllEntries, AllOf, MaxSeq, Replays, Concat, NeverBig, TablesAt, CutAt;
    r := Recovered([], [], false, mustSave, 0);
    NoLogs(bss);
    for i := 0 to |logs|
      invariant AllOf(r.tables) + r.mem == AllEntries(Concat(bss[..i])) && r.maxSeq == MaxSeq(Concat(bss[..i]))
      invariant r.kept <==> reuseLogs && i == |logs| > 0 && NeverBig(bss[i - 1], big, 0, |bss[i - 1]|)
      invariant r.kept ==>
                  && reuseLogs && i == |logs| > 0
                  && AllOf(r.tables) == AllEntries(Concat(bss[..i - 1])) && r.mem == AllEntries(bss[i - 1])
      invariant !r.kept ==> r.mem == []
      invariant mustSave || r.tables != [] ==> r.save
      invariant r.save <==> mustSave || exists j :: 0 <= j < i && Rewritten(bss[j], big, reuseLogs && j == |bss| - 1)
    {
      var one, cuts := RecoverLogFile(crc, logs[i], big, reuseLogs, i == |logs| - 1, bss[i]);
      KeptNothingWritten(bss[i], big, cuts, one);
      OneMoreLog(bss, i);
      AllOfAppend(r.tables, one.tables);
      NoTables(one.tables);
      r := Recovered(r.tables + one.tables, one.mem, one.kept, r.save || one.save, Max(r.maxSeq, one.maxSeq));
    }
    assert bss[..|logs|] == bss;
  }

  lemma KeptNothingWritten(bs: seq<Logged>, big: seq<Entry> -> bool, cuts: seq<nat>, r: Recovered)
    requires CutAt(bs, big, cuts, |bs|) && (r.kept ==> NeverBig(bs, big, 0, |bs|))
    requires var rest := AllEntries(bs[cuts[|cuts| - 1]..]);
      r.tables == TablesAt(bs, cuts) + (if r.kept || rest == [] then [] else [rest])
      && (r.save <==> |cuts| > 1 || (!r.kept && rest != []))
    ensures r.kept ==> r.tables == []
    ensures r.tables != [] ==> r.save
    ensures r.save <==> Rewritten(bs, big, r.kept)
  {
    OneCut(bs, big, cuts);
    assert bs[0..] == bs;
  }

  lemma NoTables(tables: seq<seq<Entry>>)
    ensures tables == [] ==> AllOf(tables) == []
  {
  }

  lemma NoLogs(bss: seq<seq<Logged>>)
    ensures AllEntries(Concat(bss[..0])) == [] && MaxSeq(Concat(bss[..0])) == 0 && AllOf([]) == []
  {
  }

  lemma OneMoreLog(bss: seq<seq<Logged>>, i: nat)
    requires i < |bss|
    ensures AllEntries(Concat(bss[..i + 1])) == AllEntries(Concat(bss[..i])) + AllEntries(bss[i])
    ensures MaxSeq(Concat(bss[..i + 1])) == Max(MaxSeq(Concat(bss[..i])), MaxSeq(bss[i]))
  {
    assert bss[..i + 1][..i] == bss[..i];
    AllEntriesAppend(Concat(bss[..i]), bss[i]);
    MaxSeqAppend(Concat(bss[..i]), bss[i]);
  }
}
