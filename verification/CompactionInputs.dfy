/**
  Which files of two neighbouring levels a compaction takes, and what that means for the files it
  leaves behind.
 */
module CompactionInputs {
  import opened Order
  import opened Versions
  import opened Compaction

  // ----- files that overlap a range

  /** All keys of the file are before `begin`; an empty bound is none. */
  predicate EndsBefore(cmp: Cmp, f: TableFile, begin: bytes) {
    begin != [] && cmp(f.largest.ukey, begin) == Less
  }

  predicate StartsAfter(cmp: Cmp, f: TableFile, end: bytes) {
    end != [] && cmp(f.smallest.ukey, end) == Greater
  }

  predicate Meets(cmp: Cmp, f: TableFile, begin: bytes, end: bytes) {
    !EndsBefore(cmp, f, begin) && !StartsAfter(cmp, f, end)
  }

  /** `k` is a user key of the range; an empty bound is none. */
  ghost predicate Between(cmp: Cmp, begin: bytes, end: bytes, k: bytes) {
    (begin == [] || cmp(begin, k) != Greater) && (end == [] || cmp(k, end) != Greater)
  }

  /** A file meets a range exactly if they have a user key in common. */
  lemma MeetsExactly(cmp: Cmp, f: TableFile, begin: bytes, end: bytes)
    requires TotalOrder(cmp) && cmp(f.smallest.ukey, f.largest.ukey) != Greater
    requires begin == [] || end == [] || cmp(begin, end) != Greater
    ensures Meets(cmp, f, begin, end) <==>
            exists k :: Between(cmp, begin, end, k)
              && cmp(f.smallest.ukey, k) != Greater && cmp(k, f.largest.ukey) != Greater
  {
    if Meets(cmp, f, begin, end) {
      var k := if begin == [] || cmp(begin, f.smallest.ukey) == Less then f.smallest.ukey else begin;
      assert Between(cmp, begin, end, k);
    }
  }

  predicate StartsBefore(cmp: Cmp, f: TableFile, begin: bytes) {
    begin != [] && cmp(f.smallest.ukey, begin) == Less
  }

  predicate EndsAfter(cmp: Cmp, f: TableFile, end: bytes) {
    end != [] && cmp(f.largest.ukey, end) == Greater
  }

  function Meeting(cmp: Cmp, files: seq<TableFile>, begin: bytes, end: bytes): seq<TableFile> {
    if files == [] then []
    else
      var n := |files| - 1;
      Meeting(cmp, files[..n], begin, end) + if Meets(cmp, files[n], begin, end) then [files[n]] else []
  }

  lemma {:induction false} MeetingHas(cmp: Cmp, files: seq<TableFile>, begin: bytes, end: bytes, f: TableFile)
    ensures f in Meeting(cmp, files, begin, end) <==> f in files && Meets(cmp, f, begin, end)
  {
    if files != [] {
      var n := |files| - 1;
      assert files == files[..n] + [files[n]];
      MeetingHas(cmp, files[..n], begin, end, f);
    }
  }

  /** No file that meets the range sticks out of it. */
  ghost predicate Closed(cmp: Cmp, files: seq<TableFile>, begin: bytes, end: bytes) {
    forall f :: f in files && Meets(cmp, f, begin, end) ==> !StartsBefore(cmp, f, begin) && !EndsAfter(cmp, f, end)
  }

  /** The range from `b` to `e` contains that from `begin` to `end`. */
  ghost predicate Contains(cmp: Cmp, b: bytes, e: bytes, begin: bytes, end: bytes) {
    && (b == [] || (begin != [] && cmp(b, begin) != Greater))
    && (e == [] || (end != [] && cmp(end, e) != Greater))
  }

  /** The range grows to take in `f`, on one side. */
  ghost predicate Widened(cmp: Cmp, f: TableFile, begin: bytes, end: bytes, w: (bytes, bytes)) {
    || (StartsBefore(cmp, f, begin) && w == (f.smallest.ukey, end))
    || (EndsAfter(cmp, f, end) && w == (begin, f.largest.ukey))
  }

  /** One pass over the files. In level 0, a file that sticks out widens the range and ends the pass. */
  method DoSearch(cmp: Cmp, files: seq<TableFile>, level0: bool, begin: bytes, end: bytes)
    returns (wider: Option<(bytes, bytes)>, inputs: seq<TableFile>)
    ensures wider.Some? ==>
              level0 && exists f :: f in files && Meets(cmp, f, begin, end) && Widened(cmp, f, begin, end, wider.value)
    ensures wider.None? ==> inputs == Meeting(cmp, files, begin, end) && (level0 ==> Closed(cmp, files, begin, end))
  {
    inputs := [];
    for i := 0 to |files|
      invariant inputs == Meeting(cmp, files[..i], begin, end)
      invariant level0 ==> Closed(cmp, files[..i], begin, end)
    {
      var f := files[i];
      assert files[..i + 1] == files[..i] + [f] && files[..i + 1][..i] == files[..i];
      if !Meets(cmp, f, begin, end) {
        continue;
      }
      inputs := inputs + [f];
      if level0 {
        if StartsBefore(cmp, f, begin) {
          return Some((f.smallest.ukey, end)), inputs;
        } else if EndsAfter(cmp, f, end) {
          return Some((begin, f.largest.ukey)), inputs;
        }
      }
    }
    assert files[..|files|] == files;
    wider := None;
  }

  /** How often files stick out of a range. */
  ghost function Sticking(cmp: Cmp, files: seq<TableFile>, begin: bytes, end: bytes): nat {
    if files == [] then 0
    else
      var n := |files| - 1;
      Sticking(cmp, files[..n], begin, end)
      + (if StartsBefore(cmp, files[n], begin) then 1 else 0) + (if EndsAfter(cmp, files[n], end) then 1 else 0)
  }

  lemma {:induction false} SticksLess(cmp: Cmp, files: seq<TableFile>, begin: bytes, end: bytes, f: TableFile,
                                      w: (bytes, bytes))
    requires TotalOrder(cmp) && Widened(cmp, f, begin, end, w)
    ensures Sticking(cmp, files, w.0, w.1) <= Sticking(cmp, files, begin, end)
    ensures f in files ==> Sticking(cmp, files, w.0, w.1) < Sticking(cmp, files, begin, end)
  {
    if files != [] {
      var n := |files| - 1;
      assert files == files[..n] + [files[n]];
      SticksLess(cmp, files[..n], begin, end, f, w);
    }
  }

  ghost predicate NamedBounds(files: seq<TableFile>) {
    forall f :: f in files ==> f.smallest.ukey != [] && f.largest.ukey != []
  }

  lemma WidensWithin(cmp: Cmp, files: seq<TableFile>, begin: bytes, end: bytes, f: TableFile, w: (bytes, bytes),
                     b: bytes, e: bytes)
    requires TotalOrder(cmp) && f in files && Meets(cmp, f, begin, end) && Widened(cmp, f, begin, end, w)
    requires NamedBounds(files) && Closed(cmp, files, b, e) && Contains(cmp, b, e, begin, end)
    ensures Contains(cmp, b, e, w.0, w.1)
  {
    assert Meets(cmp, f, b, e);
  }

  lemma MeetsWider(cmp: Cmp, begin: bytes, end: bytes, f: TableFile, w: (bytes, bytes), g: TableFile)
    requires TotalOrder(cmp) && Widened(cmp, f, begin, end, w) && Meets(cmp, g, begin, end)
    ensures Meets(cmp, g, w.0, w.1)
  {
  }

  /**
    The files of a level that overlap a range of user keys. In level 0, where files may overlap each
    other, the range is widened to the least one that no file it meets sticks out of.
   */
  method OverlappingInputs(cmp: Cmp, files: seq<TableFile>, level0: bool, from: bytes, to: bytes)
    returns (inputs: seq<TableFile>, ghost begin: bytes, ghost end: bytes)
    requires TotalOrder(cmp)
    ensures inputs == Meeting(cmp, files, begin, end)
    ensures forall f :: Meets(cmp, f, from, to) ==> Meets(cmp, f, begin, end)
    ensures if level0 then Closed(cmp, files, begin, end) else (begin, end) == (from, to)
    ensures (begin, end) == (from, to) || exists f :: f in files && Meets(cmp, f, from, to)
    ensures NamedBounds(files) ==>
              forall b, e :: Closed(cmp, files, b, e) && Contains(cmp, b, e, from, to) ==>
                  Contains(cmp, b, e, begin, end)
  {
    var ubegin, uend := from, to;
    while true
      invariant forall f :: Meets(cmp, f, from, to) ==> Meets(cmp, f, ubegin, uend)
      invariant !level0 ==> (ubegin, uend) == (from, to)
      invariant (ubegin, uend) == (from, to) || exists f :: f in files && Meets(cmp, f, from, to)
      invariant NamedBounds(files) ==>
                  forall b, e :: Closed(cmp, files, b, e) && Contains(cmp, b, e, from, to) ==>
                      Contains(cmp, b, e, ubegin, uend)
      decreases Sticking(cmp, files, ubegin, uend)
    {
      hide Closed, Contains, Meets, Widened;
      var wider;
      wider, inputs := DoSearch(cmp, files, level0, ubegin, uend);
      if wider.None? {
        return inputs, ubegin, uend;
      }
      ghost var f :| f in files && Meets(cmp, f, ubegin, uend) && Widened(cmp, f, ubegin, uend, wider.value);
      SticksLess(cmp, files, ubegin, uend, f, wider.value);
      forall g | Meets(cmp, g, from, to) ensures Meets(cmp, g, wider.value.0, wider.value.1) {
        MeetsWider(cmp, ubegin, uend, f, wider.value, g);
      }
      forall b, e | NamedBounds(files) && Closed(cmp, files, b, e) && Contains(cmp, b, e, from, to)
        ensures Contains(cmp, b, e, wider.value.0, wider.value.1)
      {
        WidensWithin(cmp, files, ubegin, uend, f, wider.value, b, e);
      }
      ubegin, uend := wider.value.0, wider.value.1;
    }
  }

  // ----- the two sets of inputs

  /** `e` is where the first of some files starts. */
  ghost predicate StartsAt(cmp: Cmp, files: seq<TableFile>, e: Entry) {
    (exists f :: f in files && f.smallest == e) && forall f :: f in files ==> !Before(cmp, f.smallest, e)
  }

  /** `e` is where the last of some files ends. */
  ghost predicate EndsAt(cmp: Cmp, files: seq<TableFile>, e: Entry) {
    (exists f :: f in files && f.largest == e) && forall f :: f in files ==> !Before(cmp, e, f.largest)
  }

  ghost predicate Spans(cmp: Cmp, files: seq<TableFile>, smallest: Entry, largest: Entry) {
    StartsAt(cmp, files, smallest) && EndsAt(cmp, files, largest)
  }

  lemma StartsWithOneMore(cmp: Cmp, files: seq<TableFile>, f: TableFile, e: Entry)
    requires TotalOrder(cmp) && StartsAt(cmp, files, e)
    ensures StartsAt(cmp, files + [f], if Before(cmp, f.smallest, e) then f.smallest else e)
  {
    var w :| w in files && w.smallest == e;
    assert w in files + [f] && f in files + [f];
  }

  lemma EndsWithOneMore(cmp: Cmp, files: seq<TableFile>, f: TableFile, e: Entry)
    requires TotalOrder(cmp) && EndsAt(cmp, files, e)
    ensures EndsAt(cmp, files + [f], if Before(cmp, e, f.largest) then f.largest else e)
  {
    var w :| w in files && w.largest == e;
    assert w in files + [f] && f in files + [f];
  }

  lemma OneSpans(cmp: Cmp, f: TableFile)
    requires TotalOrder(cmp)
    ensures Spans(cmp, [f], f.smallest, f.largest)
  {
    assert f in [f];
  }

  method GetRange(cmp: Cmp, files: seq<TableFile>) returns (smallest: Entry, largest: Entry)
    requires TotalOrder(cmp) && files != []
    ensures Spans(cmp, files, smallest, largest)
  {
    hide StartsAt, EndsAt;
    smallest, largest := files[0].smallest, files[0].largest;
    assert files[..1] == [files[0]];
    OneSpans(cmp, files[0]);
    for i := 1 to |files|
      invariant StartsAt(cmp, files[..i], smallest) && EndsAt(cmp, files[..i], largest)
    {
      assert files[..i + 1] == files[..i] + [files[i]];
      StartsWithOneMore(cmp, files[..i], files[i], smallest);
      EndsWithOneMore(cmp, files[..i], files[i], largest);
      if Before(cmp, files[i].smallest, smallest) {
        smallest := files[i].smallest;
      }
      if Before(cmp, largest, files[i].largest) {
        largest := files[i].largest;
      }
    }
    assert files[..|files|] == files;
  }

  /** Every file has a range; outside level 0, ranges ascend and are disjoint. */
  ghost predicate LevelShape(cmp: Cmp, files: seq<TableFile>, level0: bool) {
    && (forall f :: f in files ==> !Before(cmp, f.largest, f.smallest))
    && (!level0 ==> AscendingFiles(cmp, files))
  }

  function TotalSize(files: seq<TableFile>, size: TableFile -> nat): nat {
    if files == [] then 0 else TotalSize(files[..|files| - 1], size) + size(files[|files| - 1])
  }

  /** The files a compaction takes from its level and from the next. */
  datatype Inputs = Inputs(here: seq<TableFile>, below: seq<TableFile>)

  /** Closed under overlap in level 0, neighbours in the others. */
  ghost predicate TakenHere(cmp: Cmp, files: seq<TableFile>, level0: bool, ins: seq<TableFile>) {
    && ins != []
    && if level0 then exists b, e :: ins == Meeting(cmp, files, b, e) && Closed(cmp, files, b, e)
      else exists a, z :: 0 <= a <= z <= |files| && ins == files[a..z]
  }

  /** All files of the next level that overlap those. */
  ghost predicate TakenBelow(cmp: Cmp, files: seq<TableFile>, ins: Inputs) {
    exists s, l :: Spans(cmp, ins.here, s, l) && ins.below == Meeting(cmp, files, s.ukey, l.ukey)
  }

  ghost predicate Taken(cmp: Cmp, here: seq<TableFile>, level0: bool, below: seq<TableFile>, ins: Inputs) {
    TakenHere(cmp, here, level0, ins.here) && TakenBelow(cmp, below, ins)
  }

  /**
    The files of an ordered level that meet a range are neighbours; those before end before it, those
    after start after it.
   */
  lemma MeetingIsRun(cmp: Cmp, files: seq<TableFile>, begin: bytes, end: bytes) returns (a: nat, z: nat)
    requires TotalOrder(cmp) && AscendingFiles(cmp, files)
    ensures a <= z <= |files| && Meeting(cmp, files, begin, end) == files[a..z]
    ensures forall i :: 0 <= i < a ==> EndsBefore(cmp, files[i], begin)
    ensures forall i :: z <= i < |files| ==> StartsAfter(cmp, files[i], end)
  {
    a := FirstFrom(cmp, files, begin);
    z := FirstAfter(cmp, files, end, a);
    CutsRun(cmp, files, begin, end, a, z, |files|);
    assert files[..|files|] == files;
  }

  /** How many files end before `begin`. */
  lemma FirstFrom(cmp: Cmp, files: seq<TableFile>, begin: bytes) returns (a: nat)
    requires TotalOrder(cmp) && AscendingFiles(cmp, files)
    ensures a <= |files|
    ensures forall i :: 0 <= i < |files| ==> (i < a <==> EndsBefore(cmp, files[i], begin))
  {
    a := 0;
    while a < |files| && EndsBefore(cmp, files[a], begin)
      invariant a <= |files| && forall i :: 0 <= i < a ==> EndsBefore(cmp, files[i], begin)
    {
      a := a + 1;
    }
    forall i | a < i < |files| ensures !EndsBefore(cmp, files[i], begin) {
      assert Precedes(cmp, files[a], files[i]) && !Before(cmp, files[i].largest, files[i].smallest);
    }
  }

  /** Where, from `a` on, the files start after `end`. */
  lemma FirstAfter(cmp: Cmp, files: seq<TableFile>, end: bytes, a: nat) returns (z: nat)
    requires TotalOrder(cmp) && AscendingFiles(cmp, files) && a <= |files|
    ensures a <= z <= |files|
    ensures forall i :: a <= i < |files| ==> (z <= i <==> StartsAfter(cmp, files[i], end))
  {
    z := a;
    while z < |files| && !StartsAfter(cmp, files[z], end)
      invariant a <= z <= |files|
      invariant forall i :: a <= i < z ==> !StartsAfter(cmp, files[i], end)
    {
      z := z + 1;
    }
    forall i | z < i < |files| ensures StartsAfter(cmp, files[i], end) {
      assert Precedes(cmp, files[z], files[i]) && !Before(cmp, files[z].largest, files[z].smallest);
    }
  }

  /** The files between `a` and `z` among the first `n`. */
  ghost function RunUpTo(files: seq<TableFile>, a: nat, z: nat, n: nat): seq<TableFile>
    requires a <= z <= |files| && n <= |files|
  {
    if n <= a then [] else if n <= z then files[a..n] else files[a..z]
  }

  lemma RunGrows(files: seq<TableFile>, a: nat, z: nat, n: nat)
    requires a <= z <= |files| && n < |files|
    ensures RunUpTo(files, a, z, n + 1) == RunUpTo(files, a, z, n) + if a <= n < z then [files[n]] else []
  {
  }

  lemma MeetingGrows(cmp: Cmp, files: seq<TableFile>, begin: bytes, end: bytes, n: nat)
    requires n < |files|
    ensures Meeting(cmp, files[..n + 1], begin, end)
            == Meeting(cmp, files[..n], begin, end) + if Meets(cmp, files[n], begin, end) then [files[n]] else []
  {
    assert files[..n + 1][..n] == files[..n];
  }

  lemma {:induction false} CutsRun(cmp: Cmp, files: seq<TableFile>, begin: bytes, end: bytes, a: nat, z: nat, n: nat)
    requires a <= z <= |files| && n <= |files|
    requires forall i :: 0 <= i < |files| ==> (i < a <==> EndsBefore(cmp, files[i], begin))
    requires forall i :: a <= i < |files| ==> (z <= i <==> StartsAfter(cmp, files[i], end))
    ensures Meeting(cmp, files[..n], begin, end) == RunUpTo(files, a, z, n)
  {
    if n > 0 {
      CutsRun(cmp, files, begin, end, a, z, n - 1);
      RunGrows(files, a, z, n - 1);
      MeetingGrows(cmp, files, begin, end, n - 1);
      hide RunUpTo, EndsBefore, StartsAfter, Meeting;
    }
  }

  lemma MeetingTaken(cmp: Cmp, files: seq<TableFile>, level0: bool, begin: bytes, end: bytes)
    requires TotalOrder(cmp) && (if level0 then Closed(cmp, files, begin, end) else AscendingFiles(cmp, files))
    requires Meeting(cmp, files, begin, end) != []
    ensures TakenHere(cmp, files, level0, Meeting(cmp, files, begin, end))
  {
    if !level0 {
      var a, z := MeetingIsRun(cmp, files, begin, end);
    }
  }

  lemma TakenIn(cmp: Cmp, files: seq<TableFile>, level0: bool, ins: seq<TableFile>)
    requires TakenHere(cmp, files, level0, ins)
    ensures forall f :: f in ins ==> f in files
  {
    if level0 {
      var b, e :| ins == Meeting(cmp, files, b, e) && Closed(cmp, files, b, e);
      forall f | f in ins ensures f in files {
        MeetingHas(cmp, files, b, e, f);
      }
    }
  }

  /** Files meet any range that contains the one they span with others. */
  lemma StillMeeting(cmp: Cmp, here: seq<TableFile>, level0: bool, ins: seq<TableFile>, others: seq<TableFile>,
                     start: Entry, limit: Entry, begin: bytes, end: bytes)
    requires TotalOrder(cmp) && LevelShape(cmp, here, level0) && Spans(cmp, ins + others, start, limit)
    requires forall f :: f in ins ==> f in here
    requires forall f :: Meets(cmp, f, start.ukey, limit.ukey) ==> Meets(cmp, f, begin, end)
    ensures forall f :: f in ins ==> f in Meeting(cmp, here, begin, end)
  {
    forall f | f in ins ensures f in Meeting(cmp, here, begin, end) {
      assert f in ins + others;
      assert Meets(cmp, f, start.ukey, limit.ukey);
      MeetingHas(cmp, here, begin, end, f);
    }
  }

  /** The files of a level from `from` to `to`; in level 0, of the least closed range around that. */
  ghost predicate FilesIn(cmp: Cmp, files: seq<TableFile>, level0: bool, from: bytes, to: bytes, r: seq<TableFile>) {
    if level0 then exists b, e :: LeastClosed(cmp, files, from, to, b, e) && r == Meeting(cmp, files, b, e)
    else r == Meeting(cmp, files, from, to)
  }

  ghost predicate LeastClosed(cmp: Cmp, files: seq<TableFile>, from: bytes, to: bytes, begin: bytes, end: bytes) {
    && Closed(cmp, files, begin, end) && (forall f :: Meets(cmp, f, from, to) ==> Meets(cmp, f, begin, end))
    && (NamedBounds(files) ==>
          forall b, e :: Closed(cmp, files, b, e) && Contains(cmp, b, e, from, to) ==> Contains(cmp, b, e, begin, end))
  }

  /** The files of a level that overlap the span of `around`. */
  ghost predicate FilesAround(cmp: Cmp, files: seq<TableFile>, level0: bool, around: seq<TableFile>,
                              r: seq<TableFile>) {
    exists s, l :: Spans(cmp, around, s, l) && FilesIn(cmp, files, level0, s.ukey, l.ukey, r)
  }

  /**
    How inputs of the level itself are completed. `others` are the files below that overlap them,
    `wide` the files of the level that overlap both, `deep` the files below that overlap those. The
    wider ones are taken exactly if they are more, small enough, and need no further file below.
   */
  ghost predicate Completed(cmp: Cmp, here: seq<TableFile>, level0: bool, below: seq<TableFile>, ins: seq<TableFile>,
                            others: seq<TableFile>, wide: seq<TableFile>, deep: seq<TableFile>,
                            size: TableFile -> nat, maxFileSize: nat, r: Inputs) {
    var more := others != [] && |wide| > |ins| && TotalSize(others, size) + TotalSize(wide, size) < 25 * maxFileSize;
    && FilesAround(cmp, below, false, ins, others)
    && (others != [] ==> FilesAround(cmp, here, level0, ins + others, wide))
    && (more ==> FilesAround(cmp, below, false, wide, deep))
    && r == if more && |deep| == |others| then Inputs(wide, deep) else Inputs(ins, others)
  }

  /** Adds the overlapping files of the next level, and more of this level if that costs no further file there. */
  method SetupOtherInputs(cmp: Cmp, here: seq<TableFile>, level0: bool, below: seq<TableFile>, ins: seq<TableFile>,
                          size: TableFile -> nat, maxFileSize: nat)
    returns (r: Inputs, ghost others: seq<TableFile>, ghost wide: seq<TableFile>, ghost deep: seq<TableFile>)
    requires TotalOrder(cmp) && LevelShape(cmp, here, level0) && TakenHere(cmp, here, level0, ins)
    ensures Completed(cmp, here, level0, below, ins, others, wide, deep, size, maxFileSize, r)
    ensures Taken(cmp, here, level0, below, r)
    ensures (forall f :: f in ins ==> f in r.here) && (r.below == [] ==> r.here == ins)
  {
    hide Spans, Meeting, AscendingFiles, Closed, Meets, TotalSize, StartsAt, EndsAt, FilesIn;
    assert ins != [];
    TakenIn(cmp, here, level0, ins);
    hide TakenHere;
    var smallest, largest := GetRange(cmp, ins);
    var inputs1 := FilesOf(cmp, below, false, smallest.ukey, largest.ukey);
    InBelow(cmp, below, smallest, largest, inputs1);
    r := Inputs(ins, inputs1);
    others, wide, deep := inputs1, [], [];
    var allStart, allLimit := GetRange(cmp, ins + inputs1);
    if inputs1 != [] {
      var expanded0 := FilesOf(cmp, here, level0, allStart.ukey, allLimit.ukey);
      wide := expanded0;
      if |expanded0| > |ins| && TotalSize(inputs1, size) + TotalSize(expanded0, size) < 25 * maxFileSize {
        WideTaken(cmp, here, level0, ins, inputs1, allStart, allLimit, expanded0);
        var newStart, newLimit := GetRange(cmp, expanded0);
        var expanded1 := FilesOf(cmp, below, false, newStart.ukey, newLimit.ukey);
        InBelow(cmp, below, newStart, newLimit, expanded1);
        deep := expanded1;
        if |expanded1| == |inputs1| {
          r := Inputs(expanded0, expanded1);
        }
      }
    }
  }

  /** The files of a level that overlap a range. */
  method FilesOf(cmp: Cmp, files: seq<TableFile>, level0: bool, from: bytes, to: bytes) returns (r: seq<TableFile>)
    requires TotalOrder(cmp)
    ensures FilesIn(cmp, files, level0, from, to, r)
    ensures r == [] <==> forall f :: f in files ==> !Meets(cmp, f, from, to)
  {
    hide Meets, Closed, Contains, Meeting;
    ghost var b, e;
    r, b, e := OverlappingInputs(cmp, files, level0, from, to);
    MeetingNone(cmp, files, b, e);
    assert level0 ==> LeastClosed(cmp, files, from, to, b, e);
  }

  lemma InBelow(cmp: Cmp, files: seq<TableFile>, s: Entry, l: Entry, r: seq<TableFile>)
    requires FilesIn(cmp, files, false, s.ukey, l.ukey, r)
    ensures r == Meeting(cmp, files, s.ukey, l.ukey)
  {
  }

  /** Files of a level, so found around inputs of it, are inputs again and contain them. */
  lemma WideTaken(cmp: Cmp, here: seq<TableFile>, level0: bool, ins: seq<TableFile>, others: seq<TableFile>,
                  start: Entry, limit: Entry, wide: seq<TableFile>)
    requires TotalOrder(cmp) && LevelShape(cmp, here, level0) && Spans(cmp, ins + others, start, limit)
    requires (forall f :: f in ins ==> f in here) && wide != []
    requires FilesIn(cmp, here, level0, start.ukey, limit.ukey, wide)
    ensures TakenHere(cmp, here, level0, wide) && forall f :: f in ins ==> f in wide
  {
    hide Spans, Meeting, Closed, Meets, Contains, TakenHere, LevelShape;
    if level0 {
      var b, e :| LeastClosed(cmp, here, start.ukey, limit.ukey, b, e) && wide == Meeting(cmp, here, b, e);
      MeetingTaken(cmp, here, true, b, e);
      StillMeeting(cmp, here, true, ins, others, start, limit, b, e);
    } else {
      ShapeAscends(cmp, here);
      MeetingTaken(cmp, here, false, start.ukey, limit.ukey);
      StillMeeting(cmp, here, false, ins, others, start, limit, start.ukey, limit.ukey);
    }
  }

  lemma ShapeAscends(cmp: Cmp, files: seq<TableFile>)
    requires LevelShape(cmp, files, false)
    ensures AscendingFiles(cmp, files)
  {
  }

  /** Cuts the inputs after the file with which they exceed the maximum file size. */
  method Truncated(ins: seq<TableFile>, size: TableFile -> nat, maxFileSize: nat) returns (r: seq<TableFile>)
    ensures CutAtSize(ins, size, maxFileSize, r)
  {
    var total := 0;
    for i := 0 to |ins|
      invariant total == TotalSize(ins[..i], size) <= maxFileSize
    {
      assert ins[..i + 1][..i] == ins[..i];
      total := total + size(ins[i]);
      if total > maxFileSize {
        return ins[..i + 1];
      }
    }
    assert ins != [] ==> TotalSize(ins[..|ins|], size) >= TotalSize(ins[..|ins| - 1], size) by {
      assert ins[..|ins|] == ins;
    }
    r := ins;
  }

  /** The files of a range, cut after the one with which they exceed the maximum file size. */
  ghost predicate CutAtSize(all: seq<TableFile>, size: TableFile -> nat, maxFileSize: nat, r: seq<TableFile>) {
    && r <= all && (all != [] ==> r != [])
    && (r != [] ==> TotalSize(r[..|r| - 1], size) <= maxFileSize)
    && (r == all || TotalSize(r, size) > maxFileSize)
  }

  /** The inputs of a manual compaction of a range of user keys, if there are any; only outside level 0 they are cut. */
  method CompactRange(cmp: Cmp, here: seq<TableFile>, level0: bool, below: seq<TableFile>, from: bytes, to: bytes,
                      size: TableFile -> nat, maxFileSize: nat)
    returns (r: Option<Inputs>, ghost all: seq<TableFile>, ghost ins: seq<TableFile>, ghost others: seq<TableFile>,
             ghost wide: seq<TableFile>, ghost deep: seq<TableFile>)
    requires TotalOrder(cmp) && LevelShape(cmp, here, level0)
    ensures r.None? <==> forall f :: f in here ==> !Meets(cmp, f, from, to)
    ensures r.Some? ==> FilesIn(cmp, here, level0, from, to, all)
    ensures r.Some? ==> if level0 then ins == all else CutAtSize(all, size, maxFileSize, ins)
    ensures r.Some? ==> Completed(cmp, here, level0, below, ins, others, wide, deep, size, maxFileSize, r.value)
    ensures r.Some? ==> Taken(cmp, here, level0, below, r.value)
  {
    hide TotalSize, Meeting, Meets, Closed, AscendingFiles, TakenHere, TakenBelow, FilesIn, Completed;
    var inputs := FilesOf(cmp, here, level0, from, to);
    all, ins, others, wide, deep := inputs, inputs, [], [], [];
    if inputs == [] {
      r := None;
      return;
    }
    FoundTaken(cmp, here, level0, from, to, inputs);
    if !level0 {
      inputs := Truncated(inputs, size, maxFileSize);
      TruncatedTaken(cmp, here, from, to, all, inputs);
      ins := inputs;
    }
    var completed;
    completed, others, wide, deep := SetupOtherInputs(cmp, here, level0, below, inputs, size, maxFileSize);
    r := Some(completed);
  }

  lemma FoundTaken(cmp: Cmp, files: seq<TableFile>, level0: bool, from: bytes, to: bytes, ins: seq<TableFile>)
    requires TotalOrder(cmp) && LevelShape(cmp, files, level0)
    requires FilesIn(cmp, files, level0, from, to, ins) && ins != []
    ensures TakenHere(cmp, files, level0, ins)
  {
    hide Meeting, Closed, Meets, Contains, TakenHere, LevelShape;
    if level0 {
      var b, e :| LeastClosed(cmp, files, from, to, b, e) && ins == Meeting(cmp, files, b, e);
      MeetingTaken(cmp, files, true, b, e);
    } else {
      ShapeAscends(cmp, files);
      MeetingTaken(cmp, files, false, from, to);
    }
  }

  lemma TruncatedTaken(cmp: Cmp, files: seq<TableFile>, from: bytes, to: bytes, all: seq<TableFile>,
                       ins: seq<TableFile>)
    requires TotalOrder(cmp) && LevelShape(cmp, files, false) && FilesIn(cmp, files, false, from, to, all)
    requires ins <= all && ins != []
    ensures TakenHere(cmp, files, false, ins)
  {
    var a, z := MeetingIsRun(cmp, files, from, to);
    assert ins == files[a..a + |ins|];
  }

  lemma MeetingNone(cmp: Cmp, files: seq<TableFile>, begin: bytes, end: bytes)
    ensures Meeting(cmp, files, begin, end) == [] <==> forall f :: f in files ==> !Meets(cmp, f, begin, end)
  {
    forall f ensures f in Meeting(cmp, files, begin, end) <==> f in files && Meets(cmp, f, begin, end) {
      MeetingHas(cmp, files, begin, end, f);
    }
    if Meeting(cmp, files, begin, end) != [] {
      assert Meeting(cmp, files, begin, end)[0] in Meeting(cmp, files, begin, end);
    }
  }

  /** The file ends after the point reached last time. */
  predicate Due(cmp: Cmp, f: TableFile, reached: Option<Entry>) {
    reached.Some? ==> Before(cmp, reached.value, f.largest)
  }

  /** The first file that ends after the point reached last time, if any, or the first of all if none does. */
  ghost predicate IsPicked(cmp: Cmp, files: seq<TableFile>, reached: Option<Entry>, i: nat) {
    && i < |files|
    && (reached.None? ==> i == 0)
    && (reached.Some? ==>
          && (forall j :: 0 <= j < i ==> !Before(cmp, reached.value, files[j].largest))
          && (|| Before(cmp, reached.value, files[i].largest)
              || (i == 0 && forall j :: 0 <= j < |files| ==> !Before(cmp, reached.value, files[j].largest))))
  }

  method PickFile(cmp: Cmp, files: seq<TableFile>, reached: Option<Entry>) returns (i: nat)
    requires files != []
    ensures IsPicked(cmp, files, reached, i)
  {
    i := 0;
    while i < |files| && !Due(cmp, files[i], reached)
      invariant i <= |files| && (reached.None? ==> i == 0)
      invariant forall j :: 0 <= j < i ==> !Due(cmp, files[j], reached)
    {
      i := i + 1;
    }
    if i == |files| {
      i := 0;
    }
  }

  /**
    The end of setting up the inputs: the files two levels down that the whole compaction overlaps, if
    there is such a level, and the point reached, from which the next compaction of the level goes on.
   */
  method FinishSetup(cmp: Cmp, r: Inputs, twoDown: Option<seq<TableFile>>)
    returns (grandparents: Option<seq<TableFile>>, reached: Entry)
    requires TotalOrder(cmp) && r.here != []
    ensures EndsAt(cmp, r.here, reached)
    ensures grandparents.Some? <==> twoDown.Some?
    ensures twoDown.Some? ==> FilesAround(cmp, twoDown.value, false, r.here + r.below, grandparents.value)
  {
    var _, largest := GetRange(cmp, r.here);
    reached := largest;
    grandparents := None;
    if twoDown.Some? {
      var allStart, allLimit := GetRange(cmp, r.here + r.below);
      hide FilesIn, Spans;
      var files := FilesOf(cmp, twoDown.value, false, allStart.ukey, allLimit.ukey);
      grandparents := Some(files);
    }
  }

  /** The next compaction of the level starts from a file behind all inputs of this one, while there is one. */
  lemma MovesOn(cmp: Cmp, ins: seq<TableFile>, reached: Entry, files: seq<TableFile>, i: nat)
    requires TotalOrder(cmp) && EndsAt(cmp, ins, reached) && IsPicked(cmp, files, Some(reached), i)
    ensures (exists f :: f in files && Before(cmp, reached, f.largest)) ==>
              files[i] !in ins && forall f :: f in ins ==> Before(cmp, f.largest, files[i].largest)
  {
    if f :| f in files && Before(cmp, reached, f.largest) {
      assert Before(cmp, reached, files[i].largest);
      forall g | g in ins ensures Before(cmp, g.largest, files[i].largest) {
        assert !Before(cmp, reached, g.largest);
      }
    }
  }

  /** The inputs of a size compaction: the file picked, in level 0 with all that overlap it, completed. */
  method PickCompaction(cmp: Cmp, here: seq<TableFile>, level0: bool, below: seq<TableFile>, reached: Option<Entry>,
                        size: TableFile -> nat, maxFileSize: nat)
    returns (r: Inputs, i: nat, ghost ins: seq<TableFile>, ghost others: seq<TableFile>, ghost wide: seq<TableFile>,
             ghost deep: seq<TableFile>)
    requires TotalOrder(cmp) && LevelShape(cmp, here, level0) && here != []
    ensures IsPicked(cmp, here, reached, i) && here[i] in r.here
    ensures if level0 then FilesAround(cmp, here, true, [here[i]], ins) else ins == [here[i]]
    ensures Completed(cmp, here, level0, below, ins, others, wide, deep, size, maxFileSize, r)
    ensures Taken(cmp, here, level0, below, r)
  {
    i := PickFile(cmp, here, reached);
    hide Meeting, Closed, TakenBelow, Spans, Meets, FilesIn, Completed;
    var inputs := [here[i]];
    assert inputs == here[i..i + 1];
    if level0 {
      var smallest, largest := GetRange(cmp, inputs);
      inputs := FilesOf(cmp, here, true, smallest.ukey, largest.ukey);
      MeetsItself(cmp, here[i], smallest, largest);
      FoundTaken(cmp, here, true, smallest.ukey, largest.ukey, inputs);
      FoundHas(cmp, here, smallest.ukey, largest.ukey, inputs, here[i]);
    }
    ins := inputs;
    assert here[i] in inputs;
    r, others, wide, deep := SetupOtherInputs(cmp, here, level0, below, inputs, size, maxFileSize);
  }

  lemma FoundHas(cmp: Cmp, files: seq<TableFile>, from: bytes, to: bytes, r: seq<TableFile>, f: TableFile)
    requires FilesIn(cmp, files, true, from, to, r) && f in files && Meets(cmp, f, from, to)
    ensures f in r
  {
    hide Closed, Contains, Meets;
    var b, e :| LeastClosed(cmp, files, from, to, b, e) && r == Meeting(cmp, files, b, e);
    MeetingHas(cmp, files, b, e, f);
  }

  lemma MeetsItself(cmp: Cmp, f: TableFile, smallest: Entry, largest: Entry)
    requires TotalOrder(cmp) && Spans(cmp, [f], smallest, largest) && !Before(cmp, f.largest, f.smallest)
    ensures Meets(cmp, f, smallest.ukey, largest.ukey)
  {
    assert f in [f];
  }

  /** Sizes add up. */
  lemma {:induction false} TotalSizeAdds(a: seq<TableFile>, b: seq<TableFile>, f: TableFile, size: TableFile -> nat)
    ensures TotalSize(a + b, size) == TotalSize(a, size) + TotalSize(b, size) && TotalSize([f], size) == size(f)
    decreases |b|
  {
    assert [f][..0] == [];
    if b == [] {
      assert a + b == a;
    } else {
      var n := |b| - 1;
      TotalSizeAdds(a, b[..n], f, size);
      assert (a + b)[..|a + b| - 1] == a + b[..n];
    }
  }
}
