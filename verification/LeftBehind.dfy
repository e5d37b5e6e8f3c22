/**
  What a compaction does to the levels of the database, given which files it takes and which it
  leaves behind.
 */
module LeftBehind {
  import opened Order
  import opened Versions
  import opened Compaction
  import opened CompactionInputs
  import opened Snapshots

  ghost function EntriesOf(files: seq<TableFile>): set<Entry> {
    set f, e | f in files && e in f.entries :: e
  }

  /** Around a compaction: what is above, the two levels it works on, and the levels below those. */
  datatype Version = Version(upper: set<Entry>, here: seq<TableFile>, below: seq<TableFile>,
                             deeper: seq<seq<TableFile>>)

  ghost predicate NewerAbove(above: set<Entry>, below: set<Entry>) {
    forall x, y :: x in above && y in below && x.ukey == y.ukey ==> x.sn > y.sn
  }

  ghost predicate AllCover(cmp: Cmp, files: seq<TableFile>) {
    forall f :: f in files ==> Covers(cmp, f)
  }

  /** File ranges are as the lookups expect them, and a version of a key is newer the higher it is. */
  ghost predicate Ok(cmp: Cmp, v: Version, level0: bool) {
    && TotalOrder(cmp)
    && LevelShape(cmp, v.here, level0) && AllCover(cmp, v.here)
    && LevelShape(cmp, v.below, false) && AllCover(cmp, v.below)
    && (forall l :: 0 <= l < |v.deeper| ==> AllCover(cmp, v.deeper[l]))
    && Stacked(v.upper, EntriesOf(v.here), EntriesOf(v.below), LevelEntries(v.deeper))
  }

  ghost predicate Stacked(upper: set<Entry>, here: set<Entry>, below: set<Entry>, deeper: set<Entry>) {
    && NewerAbove(upper, here) && NewerAbove(upper, below) && NewerAbove(upper, deeper)
    && NewerAbove(here, below) && NewerAbove(here, deeper) && NewerAbove(below, deeper)
  }

  ghost function Contents(v: Version): set<Entry> {
    v.upper + EntriesOf(v.here) + EntriesOf(v.below) + LevelEntries(v.deeper)
  }

  /** The files not taken. */
  ghost function Without(files: seq<TableFile>, ins: seq<TableFile>): seq<TableFile> {
    if files == [] then []
    else
      var n := |files| - 1;
      Without(files[..n], ins) + if files[n] in ins then [] else [files[n]]
  }

  lemma {:induction false} WithoutHas(files: seq<TableFile>, ins: seq<TableFile>, f: TableFile)
    ensures f in Without(files, ins) <==> f in files && f !in ins
  {
    if files != [] {
      var n := |files| - 1;
      assert files == files[..n] + [files[n]];
      WithoutHas(files[..n], ins, f);
    }
  }

  /** The file that holds an entry. */
  lemma FileOf(files: seq<TableFile>, e: Entry) returns (i: nat)
    requires e in EntriesOf(files)
    ensures i < |files| && e in files[i].entries
  {
    var f :| f in files && e in f.entries;
    i :| 0 <= i < |files| && files[i] == f;
  }

  /** The file left behind that holds an entry. */
  lemma LeftFileOf(files: seq<TableFile>, ins: seq<TableFile>, e: Entry) returns (j: nat)
    requires e in EntriesOf(Without(files, ins))
    ensures j < |files| && files[j] !in ins && e in files[j].entries
  {
    var m := FileOf(Without(files, ins), e);
    var f := Without(files, ins)[m];
    WithoutHas(files, ins, f);
    j :| 0 <= j < |files| && files[j] == f;
  }

  lemma HoldsIn(files: seq<TableFile>, i: nat, e: Entry)
    requires i < |files| && e in files[i].entries
    ensures e in EntriesOf(files)
  {
  }

  /** The entries the compaction reads, in order. */
  ghost predicate Merged(cmp: Cmp, es: seq<Entry>, ins: Inputs) {
    && Sorted(cmp, es) && Entries(es) == EntriesOf(ins.here) + EntriesOf(ins.below)
    && forall e :: e in es ==> e.sn > 0
  }

  /** What the compaction of `ins` neither reads nor has below the two levels. */
  ghost function Outside(v: Version, ins: Inputs): set<Entry> {
    v.upper + EntriesOf(Without(v.here, ins.here)) + EntriesOf(Without(v.below, ins.below))
  }

  /** A file that is taken ends with the user key that the next one, left behind, starts with. */
  ghost predicate SharesKey(files: seq<TableFile>, ins: seq<TableFile>) {
    exists z :: 0 < z < |files| && SharesKeyAt(files, ins, z)
  }

  ghost predicate SharesKeyAt(files: seq<TableFile>, ins: seq<TableFile>, z: int)
    requires 0 < z < |files|
  {
    files[z - 1] in ins && files[z] !in ins && files[z - 1].largest.ukey == files[z].smallest.ukey
  }

  // ----- what can be left behind

  lemma InRun(cmp: Cmp, files: seq<TableFile>, a: nat, z: nat, i: nat)
    requires TotalOrder(cmp) && AscendingFiles(cmp, files) && a <= z <= |files| && i < |files|
    ensures files[i] in files[a..z] <==> a <= i < z
  {
    if a <= i < z {
      assert files[a..z][i - a] == files[i];
    } else {
      forall m | a <= m < z ensures files[m] != files[i] {
        assert m < i ==> Precedes(cmp, files[m], files[i]);
        assert i < m ==> Precedes(cmp, files[i], files[m]);
      }
    }
  }

  /** In an ordered level, a version left behind is newer than one taken, unless neighbours share its key. */
  lemma RunLeavesNewer(cmp: Cmp, files: seq<TableFile>, a: nat, z: nat, i: nat, j: nat, d: Entry, p: Entry)
    requires TotalOrder(cmp) && AscendingFiles(cmp, files) && AllCover(cmp, files) && a <= z <= |files|
    requires a <= i < z && d in files[i].entries && j < |files| && files[j] !in files[a..z] && p in files[j].entries
    requires d.ukey == p.ukey && p.sn <= d.sn
    ensures SharesKey(files, files[a..z])
  {
    InRun(cmp, files, a, z, j);
    assert Covers(cmp, files[i]) && Covers(cmp, files[j]);
    if z <= j {
      EndOfRun(cmp, files, i, z, d);
      StartBehind(cmp, files, z, j, p);
      assert Precedes(cmp, files[z - 1], files[z]);
      InRun(cmp, files, a, z, z - 1);
      InRun(cmp, files, a, z, z);
      assert SharesKeyAt(files, files[a..z], z);
    }
  }

  lemma EndOfRun(cmp: Cmp, files: seq<TableFile>, i: nat, z: nat, d: Entry)
    requires TotalOrder(cmp) && AscendingFiles(cmp, files) && i < z <= |files| && d in files[i].entries
    requires Covers(cmp, files[i])
    ensures !Before(cmp, files[z - 1].largest, d)
  {
    if i < z - 1 {
      assert Precedes(cmp, files[i], files[z - 1]) && !Before(cmp, files[z - 1].largest, files[z - 1].smallest);
    }
  }

  lemma StartBehind(cmp: Cmp, files: seq<TableFile>, z: nat, j: nat, p: Entry)
    requires TotalOrder(cmp) && AscendingFiles(cmp, files) && z <= j < |files| && p in files[j].entries
    requires Covers(cmp, files[j])
    ensures !Before(cmp, p, files[z].smallest)
  {
    if z < j {
      assert Precedes(cmp, files[z], files[j]) && !Before(cmp, files[z].largest, files[z].smallest);
    }
  }

  /** What is left in the level itself. */
  lemma HereLeavesNewer(cmp: Cmp, files: seq<TableFile>, level0: bool, ins: seq<TableFile>, d: Entry, p: Entry)
    requires TotalOrder(cmp) && LevelShape(cmp, files, level0) && AllCover(cmp, files)
    requires TakenHere(cmp, files, level0, ins) && d in EntriesOf(ins) && p in EntriesOf(Without(files, ins))
    requires d.ukey == p.ukey && p.sn <= d.sn
    ensures !level0 && SharesKey(files, ins)
  {
    hide EntriesOf, Without, Meeting, Closed, AscendingFiles, SharesKey;
    var m := FileOf(ins, d);
    var j := LeftFileOf(files, ins, p);
    if level0 {
      var b, e :| ins == Meeting(cmp, files, b, e) && Closed(cmp, files, b, e);
      ApartInLevel0(cmp, files, b, e, ins[m], files[j], d, p);
    } else {
      var a, z :| 0 <= a <= z <= |files| && ins == files[a..z];
      RunLeavesNewer(cmp, files, a, z, a + m, j, d, p);
    }
  }

  lemma ApartInLevel0(cmp: Cmp, files: seq<TableFile>, b: bytes, e: bytes, f: TableFile, g: TableFile, d: Entry,
                      p: Entry)
    requires TotalOrder(cmp) && AllCover(cmp, files) && Closed(cmp, files, b, e)
    requires f in Meeting(cmp, files, b, e) && g in files && g !in Meeting(cmp, files, b, e)
    requires d in f.entries && p in g.entries
    ensures d.ukey != p.ukey
  {
    MeetingHas(cmp, files, b, e, f);
    MeetingHas(cmp, files, b, e, g);
    assert Covers(cmp, f) && Covers(cmp, g);
  }

  lemma CoveredKeys(cmp: Cmp, f: TableFile, e: Entry)
    requires TotalOrder(cmp) && Covers(cmp, f) && e in f.entries
    ensures cmp(e.ukey, f.smallest.ukey) != Less && cmp(f.largest.ukey, e.ukey) != Less
  {
  }

  /** What is left in the next level, against what is taken from the level itself. */
  lemma BelowOverlapTaken(cmp: Cmp, here: seq<TableFile>, below: seq<TableFile>, ins: Inputs, d: Entry, p: Entry)
    requires TotalOrder(cmp) && AllCover(cmp, here) && AllCover(cmp, below) && TakenBelow(cmp, below, ins)
    requires (forall f :: f in ins.here ==> f in here) && d in EntriesOf(ins.here)
    requires p in EntriesOf(Without(below, ins.below))
    ensures d.ukey != p.ukey
  {
    hide EntriesOf, Without, Meeting, Spans, Covers;
    var s, l :| Spans(cmp, ins.here, s, l) && ins.below == Meeting(cmp, below, s.ukey, l.ukey);
    var m := FileOf(ins.here, d);
    var j := LeftFileOf(below, ins.below, p);
    MeetingHas(cmp, below, s.ukey, l.ukey, below[j]);
    SpanHolds(cmp, ins.here, s, l, m, d);
    CoveredKeys(cmp, below[j], p);
  }

  lemma SpanHolds(cmp: Cmp, files: seq<TableFile>, s: Entry, l: Entry, m: nat, d: Entry)
    requires TotalOrder(cmp) && Spans(cmp, files, s, l) && m < |files| && Covers(cmp, files[m])
    requires d in files[m].entries
    ensures cmp(d.ukey, s.ukey) != Less && cmp(l.ukey, d.ukey) != Less
  {
    CoveredKeys(cmp, files[m], d);
    assert files[m] in files;
  }

  /** What is left in the next level, against what is taken there. */
  lemma BelowLeavesNewer(cmp: Cmp, below: seq<TableFile>, ins: Inputs, d: Entry, p: Entry)
    requires TotalOrder(cmp) && LevelShape(cmp, below, false) && AllCover(cmp, below) && TakenBelow(cmp, below, ins)
    requires d in EntriesOf(ins.below) && p in EntriesOf(Without(below, ins.below))
    requires d.ukey == p.ukey && p.sn <= d.sn
    ensures SharesKey(below, ins.below)
  {
    hide EntriesOf, Without, Meeting, Spans, Covers, AscendingFiles, SharesKey, AllCover;
    var s, l :| Spans(cmp, ins.here, s, l) && ins.below == Meeting(cmp, below, s.ukey, l.ukey);
    var a, z := MeetingIsRun(cmp, below, s.ukey, l.ukey);
    var m := FileOf(ins.below, d);
    var j := LeftFileOf(below, ins.below, p);
    RunLeavesNewer(cmp, below, a, z, a + m, j, d, p);
  }

  lemma BelowTakenIn(cmp: Cmp, below: seq<TableFile>, ins: Inputs)
    requires TakenBelow(cmp, below, ins)
    ensures forall f :: f in ins.below ==> f in below
  {
    var s, l :| Spans(cmp, ins.here, s, l) && ins.below == Meeting(cmp, below, s.ukey, l.ukey);
    forall f | f in ins.below ensures f in below {
      MeetingHas(cmp, below, s.ukey, l.ukey, f);
    }
  }

  lemma SubsetEntries(files: seq<TableFile>, part: seq<TableFile>)
    requires forall f :: f in part ==> f in files
    ensures EntriesOf(part) <= EntriesOf(files)
  {
  }

  lemma LeftIsPart(files: seq<TableFile>, ins: seq<TableFile>)
    ensures EntriesOf(Without(files, ins)) <= EntriesOf(files)
  {
    forall f | f in Without(files, ins) ensures f in files {
      WithoutHas(files, ins, f);
    }
  }

  /** Taken and left entries are those of the level. */
  lemma Splits(files: seq<TableFile>, ins: seq<TableFile>)
    requires forall f :: f in ins ==> f in files
    ensures EntriesOf(files) == EntriesOf(Without(files, ins)) + EntriesOf(ins)
  {
    LeftIsPart(files, ins);
    SubsetEntries(files, ins);
    forall e | e in EntriesOf(files) ensures e in EntriesOf(Without(files, ins)) + EntriesOf(ins) {
      var i := FileOf(files, e);
      WithoutHas(files, ins, files[i]);
    }
  }

  /** An older version of a key that is read stays behind only where neighbouring files share the key. */
  lemma OlderLeftBehind(cmp: Cmp, v: Version, level0: bool, ins: Inputs, d: Entry, p: Entry)
    requires Ok(cmp, v, level0) && Taken(cmp, v.here, level0, v.below, ins)
    requires d in EntriesOf(ins.here) + EntriesOf(ins.below) && p in Outside(v, ins)
    requires d.ukey == p.ukey && p.sn <= d.sn
    ensures (!level0 && SharesKey(v.here, ins.here)) || SharesKey(v.below, ins.below)
  {
    hide EntriesOf, Without, SharesKey, AllCover, LevelShape, TakenHere, TakenBelow;
    TakenIn(cmp, v.here, level0, ins.here);
    BelowTakenIn(cmp, v.below, ins);
    Splits(v.here, ins.here);
    Splits(v.below, ins.below);
    if d in EntriesOf(ins.here) {
      if p in EntriesOf(Without(v.here, ins.here)) {
        HereLeavesNewer(cmp, v.here, level0, ins.here, d, p);
      } else if p in EntriesOf(Without(v.below, ins.below)) {
        BelowOverlapTaken(cmp, v.here, v.below, ins, d, p);
      }
    } else if p in EntriesOf(Without(v.below, ins.below)) {
      BelowLeavesNewer(cmp, v.below, ins, d, p);
    }
  }

  /** A compaction can expose a put only where neighbouring files share a key, one taken and one not. */
  lemma ExposedAtSharedKey(cmp: Cmp, v: Version, level0: bool, ins: Inputs, es: seq<Entry>, smallest: nat,
                           base: bytes -> bool)
    requires Ok(cmp, v, level0) && Taken(cmp, v.here, level0, v.below, ins) && Merged(cmp, es, ins)
    requires Exposes(es, smallest, base, Outside(v, ins))
    ensures (!level0 && SharesKey(v.here, ins.here)) || SharesKey(v.below, ins.below)
  {
    hide Ok, Taken, SharesKey, Outside, EntriesOf, Sorted;
    var i: nat, p :| ExposesPut(es, smallest, base, Outside(v, ins), i, p);
    assert es[i] in Entries(es);
    OlderLeftBehind(cmp, v, level0, ins, es[i], p);
  }

  // ----- after the compaction

  /** The database with the files of a compaction in place of its inputs, the next level in order again. */
  ghost predicate Installed(v: Version, ins: Inputs, files: seq<TableFile>, v': Version) {
    && v'.upper == v.upper && v'.deeper == v.deeper && v'.here == Without(v.here, ins.here)
    && forall f :: f in v'.below <==> (f in v.below && f !in ins.below) || f in files
  }

  ghost predicate WrittenFrom(cmp: Cmp, v: Version, es: seq<Entry>, smallest: nat, files: seq<TableFile>) {
    && Flatten(files) == Kept(es, smallest, k => IsBaseLevel(cmp, v.deeper, k), |es|)
    && AscendingFiles(cmp, files) && AllWellFormed(cmp, files) && EndsIn(es, files)
  }

  lemma {:induction false} FlattenIs(files: seq<TableFile>)
    ensures Entries(Flatten(files)) == EntriesOf(files)
  {
    if files != [] {
      var n := |files| - 1;
      assert files == files[..n] + [files[n]];
      FlattenIs(files[..n]);
      assert EntriesOf(files) == EntriesOf(files[..n]) + EntriesOf([files[n]]);
    }
  }

  /** What the next level holds afterwards. */
  lemma InstalledBelow(v: Version, ins: Inputs, files: seq<TableFile>, v': Version)
    requires Installed(v, ins, files, v')
    ensures EntriesOf(v'.below) == EntriesOf(Without(v.below, ins.below)) + EntriesOf(files)
  {
    forall f ensures f in Without(v.below, ins.below) <==> f in v.below && f !in ins.below {
      WithoutHas(v.below, ins.below, f);
    }
    forall e | e in EntriesOf(v'.below) ensures e in EntriesOf(Without(v.below, ins.below)) + EntriesOf(files) {
      var i := FileOf(v'.below, e);
    }
  }

  /** Contents before and after, in the terms of the compaction. */
  lemma ContentsAround(cmp: Cmp, v: Version, level0: bool, ins: Inputs, es: seq<Entry>, files: seq<TableFile>,
                       v': Version)
    requires Taken(cmp, v.here, level0, v.below, ins) && Merged(cmp, es, ins) && Installed(v, ins, files, v')
    ensures Contents(v) == Outside(v, ins) + LevelEntries(v.deeper) + Readable(es)
    ensures Contents(v') == Outside(v, ins) + LevelEntries(v.deeper) + Entries(Flatten(files))
  {
    hide EntriesOf, Without, Flatten, LevelEntries, TakenHere, TakenBelow, Sorted;
    TakenIn(cmp, v.here, level0, ins.here);
    BelowTakenIn(cmp, v.below, ins);
    Splits(v.here, ins.here);
    Splits(v.below, ins.below);
    InstalledBelow(v, ins, files, v');
    FlattenIs(files);
    assert Readable(es) == Entries(es);
  }

  lemma DeeperCovers(cmp: Cmp, v: Version, level0: bool)
    requires Ok(cmp, v, level0)
    ensures forall l, i :: 0 <= l < |v.deeper| && 0 <= i < |v.deeper[l]| ==> Covers(cmp, v.deeper[l][i])
  {
    forall l, i | 0 <= l < |v.deeper| && 0 <= i < |v.deeper[l]| ensures Covers(cmp, v.deeper[l][i]) {
      assert AllCover(cmp, v.deeper[l]) && v.deeper[l][i] in v.deeper[l];
    }
  }

  /**
    A compaction changes nothing for readers at or above its smallest sequence number, exactly if no
    deletion marker it drops hid a put in a file left behind.
   */
  lemma VersionReadsKept(cmp: Cmp, v: Version, level0: bool, ins: Inputs, es: seq<Entry>, smallest: nat,
                         files: seq<TableFile>, v': Version)
    requires Ok(cmp, v, level0) && Taken(cmp, v.here, level0, v.below, ins) && Merged(cmp, es, ins)
    requires WrittenFrom(cmp, v, es, smallest, files) && Installed(v, ins, files, v')
    requires smallest < MAX_SEQUENCE_NUMBER
    ensures (forall s :: smallest <= s ==> SameReads(Contents(v), Contents(v'), s))
       <==> !Exposes(es, smallest, k => IsBaseLevel(cmp, v.deeper, k), Outside(v, ins))
  {
    hide Exposes, SameReads, Outside, Contents, Flatten, Kept, Installed, EntriesOf, LevelEntries, Sorted, Taken;
    hide Stacked, LevelShape, AllWellFormed, AscendingFiles, Readable, Entries, IsBaseLevel;
    ContentsAround(cmp, v, level0, ins, es, files, v');
    DeeperCovers(cmp, v, level0);
    hide Ok, Covers, AllCover;
    InstalledFilesPreserveReads(cmp, es, smallest, v.deeper, files, Outside(v, ins));
  }

  /** The files of the next level before and after the run taken there lie before and after all that is read. */
  lemma AroundInputs(cmp: Cmp, v: Version, level0: bool, ins: Inputs, s: Entry, l: Entry, a: nat, z: nat, i: nat,
                     e: Entry)
    requires Ok(cmp, v, level0) && (forall f :: f in ins.here ==> f in v.here) && Spans(cmp, ins.here, s, l)
    requires a <= z <= |v.below| && ins.below == v.below[a..z] && i < |v.below| && !(a <= i < z)
    requires if i < a then EndsBefore(cmp, v.below[i], s.ukey) else StartsAfter(cmp, v.below[i], l.ukey)
    requires e in EntriesOf(ins.here) + EntriesOf(ins.below)
    ensures if i < a then Before(cmp, v.below[i].largest, e) else Before(cmp, e, v.below[i].smallest)
  {
    hide EntriesOf, Spans, Stacked, AscendingFiles, Covers;
    if e in EntriesOf(ins.here) {
      var m := FileOf(ins.here, e);
      SpanHolds(cmp, ins.here, s, l, m, e);
    } else {
      var m := FileOf(ins.below, e);
      BetweenFiles(cmp, v.below, a + m, i, e);
    }
  }

  lemma BetweenFiles(cmp: Cmp, files: seq<TableFile>, m: nat, i: nat, e: Entry)
    requires TotalOrder(cmp) && AscendingFiles(cmp, files) && AllCover(cmp, files)
    requires m < |files| && i < |files| && i != m && e in files[m].entries
    ensures if i < m then Before(cmp, files[i].largest, e) else Before(cmp, e, files[i].smallest)
  {
    assert Covers(cmp, files[m]);
    if i < m {
      assert Precedes(cmp, files[i], files[m]);
    } else {
      assert Precedes(cmp, files[m], files[i]);
    }
  }

  lemma Spliced(cmp: Cmp, files: seq<TableFile>, a: nat, z: nat, mid: seq<TableFile>)
    requires AscendingFiles(cmp, files) && a <= z <= |files| && AscendingFiles(cmp, mid)
    requires forall i, m :: 0 <= i < a && 0 <= m < |mid| ==> Precedes(cmp, files[i], mid[m])
    requires forall i, m :: z <= i < |files| && 0 <= m < |mid| ==> Precedes(cmp, mid[m], files[i])
    ensures AscendingFiles(cmp, files[..a] + mid + files[z..])
  {
    var all := files[..a] + mid + files[z..];
    var n := a + |mid|;
    forall i, j | 0 <= i < j < |all| ensures Precedes(cmp, all[i], all[j]) {
      if i < a && n <= j {
        assert Precedes(cmp, files[i], files[j - n + z]);
      } else if n <= i {
        assert Precedes(cmp, files[i - n + z], files[j - n + z]);
      }
    }
  }

  /** The outputs fit between the files that stay, so that the next level is in order again. */
  lemma FitsBetween(cmp: Cmp, v: Version, level0: bool, ins: Inputs, es: seq<Entry>, smallest: nat,
                    files: seq<TableFile>, s: Entry, l: Entry, a: nat, z: nat)
    requires Ok(cmp, v, level0) && (forall f :: f in ins.here ==> f in v.here) && Spans(cmp, ins.here, s, l)
    requires Merged(cmp, es, ins) && WrittenFrom(cmp, v, es, smallest, files)
    requires a <= z <= |v.below| && ins.below == v.below[a..z]
    requires forall i :: 0 <= i < a ==> EndsBefore(cmp, v.below[i], s.ukey)
    requires forall i :: z <= i < |v.below| ==> StartsAfter(cmp, v.below[i], l.ukey)
    ensures AscendingFiles(cmp, v.below[..a] + files + v.below[z..])
  {
    StartsIn(es, smallest, k => IsBaseLevel(cmp, v.deeper, k), files);
    hide EntriesOf, Spans, Flatten, Kept, AllCover, Stacked, Sorted;
    forall i, m | 0 <= i < a && 0 <= m < |files| ensures Precedes(cmp, v.below[i], files[m]) {
      assert files[m].smallest in Entries(es);
      AroundInputs(cmp, v, level0, ins, s, l, a, z, i, files[m].smallest);
    }
    forall i, m | z <= i < |v.below| && 0 <= m < |files| ensures Precedes(cmp, files[m], v.below[i]) {
      assert files[m].largest in Entries(es);
      AroundInputs(cmp, v, level0, ins, s, l, a, z, i, files[m].largest);
    }
    Spliced(cmp, v.below, a, z, files);
  }

  lemma StartsIn(es: seq<Entry>, smallest: nat, base: bytes -> bool, files: seq<TableFile>)
    requires Flatten(files) == Kept(es, smallest, base, |es|)
    ensures forall m :: 0 <= m < |files| && files[m].entries != [] ==> files[m].entries[0] in es
  {
    forall m | 0 <= m < |files| && files[m].entries != [] ensures files[m].entries[0] in es {
      var p := FlattenHas(files, m, 0);
      var j := KeptOrigin(es, smallest, base, |es|, p);
    }
  }

  lemma {:induction false} WithoutAscends(cmp: Cmp, files: seq<TableFile>, ins: seq<TableFile>)
    requires AscendingFiles(cmp, files)
    ensures AscendingFiles(cmp, Without(files, ins))
  {
    if files != [] {
      var n := |files| - 1;
      WithoutAscends(cmp, files[..n], ins);
      forall i | 0 <= i < |Without(files[..n], ins)| ensures Precedes(cmp, Without(files[..n], ins)[i], files[n]) {
        WithoutHas(files[..n], ins, Without(files[..n], ins)[i]);
        var m :| 0 <= m < n && files[m] == Without(files[..n], ins)[i];
        assert Precedes(cmp, files[m], files[n]);
      }
    }
  }

  lemma HereStaysInOrder(cmp: Cmp, files: seq<TableFile>, level0: bool, ins: seq<TableFile>)
    requires LevelShape(cmp, files, level0) && AllCover(cmp, files)
    ensures LevelShape(cmp, Without(files, ins), level0) && AllCover(cmp, Without(files, ins))
  {
    hide AscendingFiles;
    forall f | f in Without(files, ins) ensures f in files {
      WithoutHas(files, ins, f);
    }
    if !level0 {
      WithoutAscends(cmp, files, ins);
    }
  }

  /** Whatever is taken, the files of both levels are in order afterwards, as installing them asserts. */
  lemma InstalledInOrder(cmp: Cmp, v: Version, level0: bool, ins: Inputs, es: seq<Entry>, smallest: nat,
                         files: seq<TableFile>)
    returns (v': Version)
    requires Ok(cmp, v, level0) && Taken(cmp, v.here, level0, v.below, ins) && Merged(cmp, es, ins)
    requires WrittenFrom(cmp, v, es, smallest, files)
    ensures Installed(v, ins, files, v')
    ensures LevelShape(cmp, v'.here, level0) && AllCover(cmp, v'.here)
    ensures LevelShape(cmp, v'.below, false) && AllCover(cmp, v'.below)
  {
    hide Spans, Meeting, Without, Merged, Stacked, TakenHere, Flatten, Kept, EndsIn, IsBaseLevel;
    TakenIn(cmp, v.here, level0, ins.here);
    var s, l :| Spans(cmp, ins.here, s, l) && ins.below == Meeting(cmp, v.below, s.ukey, l.ukey);
    var a, z := MeetingIsRun(cmp, v.below, s.ukey, l.ukey);
    FitsBetween(cmp, v, level0, ins, es, smallest, files, s, l, a, z);
    HereStaysInOrder(cmp, v.here, level0, ins.here);
    v' := Version(v.upper, Without(v.here, ins.here), v.below[..a] + files + v.below[z..], v.deeper);
    SplicedHas(cmp, v.below, a, z, files);
    SplicedShape(cmp, v.below, files, v'.below);
  }

  lemma SplicedHas(cmp: Cmp, files: seq<TableFile>, a: nat, z: nat, mid: seq<TableFile>)
    requires TotalOrder(cmp) && AscendingFiles(cmp, files) && a <= z <= |files|
    ensures var all := files[..a] + mid + files[z..];
      forall f :: f in all <==> (f in files && f !in files[a..z]) || f in mid
  {
    hide AscendingFiles;
    var all := files[..a] + mid + files[z..];
    forall f ensures f in all <==> (f in files && f !in files[a..z]) || f in mid {
      assert files == files[..a] + files[a..z] + files[z..];
      if f in files[..a] || f in files[z..] {
        var i :| 0 <= i < |files| && files[i] == f && !(a <= i < z);
        InRun(cmp, files, a, z, i);
      }
    }
  }

  lemma SplicedShape(cmp: Cmp, files: seq<TableFile>, mid: seq<TableFile>, all: seq<TableFile>)
    requires LevelShape(cmp, files, false) && AllCover(cmp, files) && AllWellFormed(cmp, mid)
    requires AscendingFiles(cmp, mid) && AscendingFiles(cmp, all) && forall f :: f in all ==> f in files || f in mid
    ensures LevelShape(cmp, all, false) && AllCover(cmp, all)
  {
    forall f | f in all ensures !Before(cmp, f.largest, f.smallest) && Covers(cmp, f) {
      if f in mid {
        var m :| 0 <= m < |mid| && mid[m] == f;
        assert WellFormed(cmp, mid[m]);
      }
    }
  }

  /** A version that is kept goes to the next level while an older one stays in the level above. */
  ghost predicate Overtakes(v: Version, ins: Inputs, files: seq<TableFile>) {
    exists x, e ::
      x in EntriesOf(Without(v.here, ins.here)) && e in EntriesOf(files) && x.ukey == e.ukey && x.sn <= e.sn
  }

  /** Versions stay newer the higher they are exactly if none overtakes; where one does, neighbours share a key. */
  lemma OrderKept(cmp: Cmp, v: Version, level0: bool, ins: Inputs, es: seq<Entry>, smallest: nat,
                  files: seq<TableFile>, v': Version)
    requires Ok(cmp, v, level0) && Taken(cmp, v.here, level0, v.below, ins) && Merged(cmp, es, ins)
    requires WrittenFrom(cmp, v, es, smallest, files) && Installed(v, ins, files, v')
    ensures Stacked(v'.upper, EntriesOf(v'.here), EntriesOf(v'.below), LevelEntries(v'.deeper))
       <==> !Overtakes(v, ins, files)
    ensures Overtakes(v, ins, files) ==> !level0 && SharesKey(v.here, ins.here)
  {
    hide EntriesOf, Without, LevelEntries, LevelShape, AllCover, TakenHere, TakenBelow, SharesKey;
    KeptAreRead(cmp, v, ins, es, smallest, files);
    TakenIn(cmp, v.here, level0, ins.here);
    BelowTakenIn(cmp, v.below, ins);
    Splits(v.here, ins.here);
    Splits(v.below, ins.below);
    InstalledBelow(v, ins, files, v');
    hide WrittenFrom, Merged, Installed;
    if Overtakes(v, ins, files) {
      var x, e :| x in EntriesOf(Without(v.here, ins.here)) && e in EntriesOf(files) && x.ukey == e.ukey
                  && x.sn <= e.sn;
      HereLeavesNewer(cmp, v.here, level0, ins.here, e, x);
    }
  }

  lemma KeptAreRead(cmp: Cmp, v: Version, ins: Inputs, es: seq<Entry>, smallest: nat, files: seq<TableFile>)
    requires Merged(cmp, es, ins) && WrittenFrom(cmp, v, es, smallest, files)
    ensures EntriesOf(files) <= EntriesOf(ins.here) + EntriesOf(ins.below)
  {
    var base := k => IsBaseLevel(cmp, v.deeper, k);
    FlattenIs(files);
    OutputIs(es, smallest, base);
    assert Entries(Flatten(files)) == Output(es, smallest, base);
  }

  /**
    A compaction that takes no file without the neighbour it shares a key with keeps the database
    in order, and no reader at or above its smallest sequence number notices it.
   */
  lemma CleanCompaction(cmp: Cmp, v: Version, level0: bool, ins: Inputs, es: seq<Entry>, smallest: nat,
                        files: seq<TableFile>)
    returns (v': Version)
    requires Ok(cmp, v, level0) && Taken(cmp, v.here, level0, v.below, ins) && Merged(cmp, es, ins)
    requires WrittenFrom(cmp, v, es, smallest, files) && smallest < MAX_SEQUENCE_NUMBER
    requires (level0 || !SharesKey(v.here, ins.here)) && !SharesKey(v.below, ins.below)
    ensures Installed(v, ins, files, v') && Ok(cmp, v', level0)
    ensures forall s :: smallest <= s ==> SameReads(Contents(v), Contents(v'), s)
  {
    hide Taken, Merged, WrittenFrom, SharesKey, Overtakes, Stacked, Exposes, SameReads, Contents, LevelShape, AllCover;
    var base := k => IsBaseLevel(cmp, v.deeper, k);
    v' := InstalledInOrder(cmp, v, level0, ins, es, smallest, files);
    OrderKept(cmp, v, level0, ins, es, smallest, files, v');
    VersionReadsKept(cmp, v, level0, ins, es, smallest, files, v');
    if Exposes(es, smallest, base, Outside(v, ins)) {
      ExposedAtSharedKey(cmp, v, level0, ins, es, smallest, base);
    }
  }

  // ----- two compactions that go wrong

  const TWO_VERSIONS: seq<Entry> := [Entry([1], 2, Deletion, []), Entry([1], 1, Value, [7])]

  const TWO_PUTS: seq<Entry> := [Entry([1], 2, Value, [8]), Entry([1], 1, Value, [7])]

  /** With every entry enough to fill a file, two entries make two files. */
  lemma OnePerFile(cmp: Cmp, files: seq<TableFile>, es: seq<Entry>, full: seq<Entry> -> bool)
    requires Flatten(files) == es && |es| == 2 && AllWellFormed(cmp, files) && Portioned(full, files)
    requires forall f :: full(f)
    ensures Apart(files, es)
  {
    forall i | 0 <= i < |files| ensures |files[i].entries| == 1 {
      assert WellFormed(cmp, files[i]) && Portion(full, files[i].entries);
      assert full(files[i].entries[..1]);
    }
    FlattenSingles(files);
  }

  lemma {:induction false} FlattenSingles(files: seq<TableFile>)
    requires forall i :: 0 <= i < |files| ==> |files[i].entries| == 1
    ensures |Flatten(files)| == |files|
    ensures forall i :: 0 <= i < |files| ==> files[i].entries == [Flatten(files)[i]]
  {
    if files != [] {
      FlattenSingles(files[..|files| - 1]);
    }
  }

  ghost predicate Apart(files: seq<TableFile>, es: seq<Entry>) {
    && |files| == |es| == 2 && files[0].entries == [es[0]] && files[1].entries == [es[1]]
    && files[0].smallest == es[0] && files[1].smallest == es[1]
  }

  /** While a snapshot needs both, a compaction writes the two versions of a key to a file each. */
  method WriteApart(cmp: Cmp, es: seq<Entry>) returns (written: seq<TableFile>)
    requires TotalOrder(cmp) && |es| == 2 && es[0].ukey == es[1].ukey == [1] && es[0].sn == 2 && es[1].sn == 1
    requires es[1].kind == Value
    ensures Apart(written, es) && LevelShape(cmp, written, false)
    ensures Ok(cmp, Version({}, written, [], []), false) && Merged(cmp, [es[0]], Inputs(written[..1], []))
  {
    var snaps := new SnapshotList();
    var first := snaps.NewSnapshot(1);
    var smallest := snaps.SmallestForCompaction(2);
    assert first in snaps.live;
    var deeper := new DeeperLevels(cmp, []);
    var full: seq<Entry> -> bool := _ => true;
    var r := DoCompactionWork(es, smallest, deeper, _ => false, full);
    ghost var base := k => IsBaseLevel(deeper.cmp, deeper.levels, k);
    KeepsBoth(es, base);
    written := r.files;
    OnePerFile(cmp, written, es, full);
    ApartIsOk(cmp, written, es);
  }

  lemma KeepsBoth(es: seq<Entry>, base: bytes -> bool)
    requires |es| == 2 && es[0].ukey == es[1].ukey && es[0].sn == 2 && es[1].sn == 1 && es[1].kind == Value
    ensures Kept(es, 1, base, 2) == es
  {
    assert Kept(es, 1, base, 1) == [es[0]];
  }

  lemma ApartIsOk(cmp: Cmp, files: seq<TableFile>, es: seq<Entry>)
    requires TotalOrder(cmp) && Apart(files, es) && es[0].sn > 0
    requires AscendingFiles(cmp, files) && AllWellFormed(cmp, files)
    ensures LevelShape(cmp, files, false)
    ensures Ok(cmp, Version({}, files, [], []), false) && Merged(cmp, [es[0]], Inputs(files[..1], []))
  {
    assert WellFormed(cmp, files[0]) && WellFormed(cmp, files[1]);
    assert AllCover(cmp, files) && LevelShape(cmp, files, false);
    assert EntriesOf([]) == {} && LevelEntries([]) == {};
    assert files[..1] == [files[0]];
    assert EntriesOf([files[0]]) == {es[0]} by {
      HoldsIn([files[0]], 0, es[0]);
    }
  }

  /** A manual compaction of the key then takes the first of the files alone, being larger than a file should be. */
  method TakeFirst(cmp: Cmp, written: seq<TableFile>) returns (ins: Inputs)
    requires TotalOrder(cmp) && LevelShape(cmp, written, false) && |written| == 2
    requires written[0].smallest.ukey == written[1].smallest.ukey == [1]
    ensures ins == Inputs(written[..1], []) && Taken(cmp, written, false, [], ins)
  {
    var size: TableFile -> nat := _ => 11;
    FirstMeets(cmp, written);
    var r, all, first, others, wide, deep := CompactRange(cmp, written, false, [], [1], [1], size, 10);
    ins := r.value;
    FirstAlone(cmp, written, first, others, wide, deep, ins, size);
  }

  lemma FirstMeets(cmp: Cmp, files: seq<TableFile>)
    requires TotalOrder(cmp) && LevelShape(cmp, files, false) && |files| == 2
    requires files[0].smallest.ukey == files[1].smallest.ukey == [1]
    ensures Meets(cmp, files[0], [1], [1]) && Meets(cmp, files[1], [1], [1])
    ensures Meeting(cmp, files, [1], [1]) == files
  {
    assert files[0] in files && files[1] in files;
    assert Meeting(cmp, files[..1], [1], [1]) == [files[0]];
  }

  lemma FirstAlone(cmp: Cmp, files: seq<TableFile>, first: seq<TableFile>, others: seq<TableFile>,
                   wide: seq<TableFile>, deep: seq<TableFile>, ins: Inputs, size: TableFile -> nat)
    requires Completed(cmp, files, false, [], first, others, wide, deep, size, 10, ins)
    requires |files| == 2 && CutAtSize(files, size, 10, first) && forall f :: size(f) == 11
    ensures ins == Inputs(files[..1], [])
  {
    assert TotalSize([files[0]], size) == 11 && files[..2][..1] == [files[0]] == files[..1];
    assert others == [];
  }

  /** What the two files hold, and what the second holds alone. */
  lemma ApartEntries(cmp: Cmp, files: seq<TableFile>, es: seq<Entry>)
    requires TotalOrder(cmp) && Apart(files, es) && LevelShape(cmp, files, false)
    ensures EntriesOf(files) == {es[0], es[1]} && EntriesOf(Without(files, files[..1])) == {es[1]}
  {
    assert files == [files[0], files[1]] && files[..1] == [files[0]];
    assert Precedes(cmp, files[0], files[1]) && !Before(cmp, files[0].largest, files[0].smallest);
    assert files[0] != files[1];
    assert Without([files[0]], [files[0]]) == [] && Without(files, [files[0]]) == [files[1]];
    HoldsIn(files, 0, es[0]);
    HoldsIn(files, 1, es[1]);
    HoldsIn([files[1]], 0, es[1]);
  }

  lemma NoFiles(cmp: Cmp, files: seq<TableFile>)
    requires Flatten(files) == [] && AllWellFormed(cmp, files)
    ensures files == [] && EntriesOf(files) == {}
  {
    assert forall i :: 0 <= i < |files| ==> WellFormed(cmp, files[i]);
  }

  /** With a new list of snapshots, the deletion marker is dropped and the put it hid is read again. */
  method DeletedKeyReturns(cmp: Cmp) returns (written: seq<TableFile>, ins: Inputs, files: seq<TableFile>)
    requires TotalOrder(cmp)
    ensures Ok(cmp, Version({}, written, [], []), false) && Taken(cmp, written, false, [], ins)
    ensures Reads(EntriesOf(written), [1], 2, None)
    ensures Reads(EntriesOf(Without(written, ins.here)) + EntriesOf(files), [1], 2, Some([7]))
  {
    hide Ok, Taken, LevelShape, EntriesOf, Without, Merged;
    var es := TWO_VERSIONS;
    written := WriteApart(cmp, es);
    ins := TakeFirst(cmp, written);
    var snaps := new SnapshotList();
    var smallest := snaps.SmallestForCompaction(2);
    var deeper := new DeeperLevels(cmp, []);
    var r := DoCompactionWork([es[0]], smallest, deeper, _ => false, _ => true);
    ghost var base := k => IsBaseLevel(deeper.cmp, deeper.levels, k);
    assert Dropped([es[0]], 0, smallest, base) && Kept([es[0]], smallest, base, 0) == [];
    files := r.files;
    NoFiles(cmp, files);
    ApartEntries(cmp, written, es);
    assert Newest({es[0], es[1]}, [1], 2, es[0]) && Newest({es[1]} + {}, [1], 2, es[1]);
  }

  /** Of two puts, the newer one goes to the next level and the older one stays above it. */
  method OlderVersionAbove(cmp: Cmp) returns (written: seq<TableFile>, ins: Inputs, files: seq<TableFile>)
    requires TotalOrder(cmp)
    ensures Ok(cmp, Version({}, written, [], []), false) && Taken(cmp, written, false, [], ins)
    ensures Overtakes(Version({}, written, [], []), ins, files)
  {
    hide Ok, Taken, LevelShape, EntriesOf, Without, Merged;
    var es := TWO_PUTS;
    written := WriteApart(cmp, es);
    ins := TakeFirst(cmp, written);
    var deeper := new DeeperLevels(cmp, []);
    var r := DoCompactionWork([es[0]], 2, deeper, _ => false, _ => true);
    ghost var base := k => IsBaseLevel(deeper.cmp, deeper.levels, k);
    assert !Dropped([es[0]], 0, 2, base) && Kept([es[0]], 2, base, 0) == [];
    files := r.files;
    assert es[0] in Entries(Flatten(files));
    FlattenIs(files);
    ApartEntries(cmp, written, es);
    assert es[1].sn <= es[0].sn && es[1] in EntriesOf(Without(written, ins.here));
  }
}
