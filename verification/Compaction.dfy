/**
  Compaction: merges the inputs of two levels into new files of the deeper one, dropping the
  entries that no live snapshot can see.
 */
module Compaction {
  import opened Order
  import opened Versions

  /** A table file; its bounds are the internal keys of two entries. */
  datatype TableFile = TableFile(smallest: Entry, largest: Entry, entries: seq<Entry>)

  ghost predicate Covers(cmp: Cmp, f: TableFile) {
    forall i :: 0 <= i < |f.entries| ==> !Before(cmp, f.entries[i], f.smallest) && !Before(cmp, f.largest, f.entries[i])
  }

  /** The range of `f` ends before that of `g` starts. */
  ghost predicate Precedes(cmp: Cmp, f: TableFile, g: TableFile) {
    Before(cmp, f.largest, g.smallest)
  }

  /** The files of one level have ascending, disjoint ranges. */
  ghost predicate AscendingFiles(cmp: Cmp, files: seq<TableFile>) {
    && (forall i :: 0 <= i < |files| ==> !Before(cmp, files[i].largest, files[i].smallest))
    && (forall i, j :: 0 <= i < j < |files| ==> Precedes(cmp, files[i], files[j]))
  }

  // ----- which entries survive

  /** Sequence number of the next newer version of the same key, or the maximum for a key's first entry. */
  ghost function NewerSeq(es: seq<Entry>, i: nat): nat
    requires i < |es|
  {
    if i > 0 && es[i - 1].ukey == es[i].ukey && es[i - 1].sn > 0 then es[i - 1].sn else MAX_SEQUENCE_NUMBER
  }

  /** An older version that a newer one, itself at or below every live snapshot, hides from all of them. */
  ghost predicate Shadowed(es: seq<Entry>, i: nat, smallest: nat)
    requires i < |es|
  {
    NewerSeq(es, i) <= smallest
  }

  ghost predicate Dropped(es: seq<Entry>, i: nat, smallest: nat, base: bytes -> bool)
    requires i < |es|
  {
    || es[i].sn == 0
    || Shadowed(es, i, smallest)
    || (es[i].kind == Deletion && es[i].sn <= smallest && base(es[i].ukey))
  }

  /** The survivors among the first `n` entries, in order. */
  ghost function Kept(es: seq<Entry>, smallest: nat, base: bytes -> bool, n: nat): seq<Entry>
    requires n <= |es|
  {
    if n == 0 then []
    else Kept(es, smallest, base, n - 1) + if Dropped(es, n - 1, smallest, base) then [] else [es[n - 1]]
  }

  lemma {:induction false} KeptPrefix(es: seq<Entry>, smallest: nat, base: bytes -> bool, m: nat, n: nat)
    requires m <= n <= |es|
    ensures Kept(es, smallest, base, m) <= Kept(es, smallest, base, n)
  {
    if m < n {
      KeptPrefix(es, smallest, base, m, n - 1);
    }
  }

  /** Where the `a`-th survivor comes from: as many entries before it survive as come before it in the output. */
  lemma {:induction false} KeptOrigin(es: seq<Entry>, smallest: nat, base: bytes -> bool, n: nat, a: nat)
    returns (i: nat)
    requires n <= |es| && a < |Kept(es, smallest, base, n)|
    ensures i < n && !Dropped(es, i, smallest, base) && a == |Kept(es, smallest, base, i)|
    ensures Kept(es, smallest, base, n)[a] == es[i]
  {
    if a < |Kept(es, smallest, base, n - 1)| {
      i := KeptOrigin(es, smallest, base, n - 1, a);
    } else {
      i := n - 1;
    }
  }

  lemma {:induction false} KeptHas(es: seq<Entry>, smallest: nat, base: bytes -> bool, n: nat, i: nat)
    requires i < n <= |es| && !Dropped(es, i, smallest, base)
    ensures es[i] in Kept(es, smallest, base, n)
  {
    if i < n - 1 {
      KeptHas(es, smallest, base, n - 1, i);
    }
  }

  lemma KeptSorted(cmp: Cmp, es: seq<Entry>, smallest: nat, base: bytes -> bool, n: nat)
    requires Sorted(cmp, es) && n <= |es|
    ensures Sorted(cmp, Kept(es, smallest, base, n))
  {
    var out := Kept(es, smallest, base, n);
    forall a, b | 0 <= a < b < |out| ensures Before(cmp, out[a], out[b]) {
      var i := KeptOrigin(es, smallest, base, n, a);
      var j := KeptOrigin(es, smallest, base, n, b);
      if j <= i {
        KeptPrefix(es, smallest, base, j, i);
      }
      assert Before(cmp, es[i], es[j]);
    }
  }

  // ----- what a reader may notice

  /** Entries whose sequence number parses; the others are discarded as unreadable. */
  ghost function Readable(es: seq<Entry>): set<Entry> {
    set e | e in es && e.sn > 0
  }

  ghost function Output(es: seq<Entry>, smallest: nat, base: bytes -> bool): set<Entry> {
    Entries(Kept(es, smallest, base, |es|))
  }

  /** The entry at `i` goes because it is a deletion marker, the newest version at or below every live snapshot. */
  ghost predicate GoesAsDeletion(es: seq<Entry>, i: nat, smallest: nat, base: bytes -> bool) {
    i < |es| && es[i].kind == Deletion && 0 < es[i].sn <= smallest && base(es[i].ukey) && !Shadowed(es, i, smallest)
  }

  /** Such a marker hid `p`, a put that is not among the inputs. */
  ghost predicate ExposesPut(es: seq<Entry>, smallest: nat, base: bytes -> bool, outside: set<Entry>, i: nat, p: Entry)
  {
    && GoesAsDeletion(es, i, smallest, base)
    && p.kind == Value && p.sn < es[i].sn && Newest(outside, es[i].ukey, smallest, p)
  }

  ghost predicate Exposes(es: seq<Entry>, smallest: nat, base: bytes -> bool, outside: set<Entry>) {
    exists i: nat, p :: ExposesPut(es, smallest, base, outside, i, p)
  }

  /** Readers at `s` find the same in both stores. */
  ghost predicate SameReads(before: set<Entry>, after: set<Entry>, s: nat) {
    forall k, r :: Reads(before, k, s, r) <==> Reads(after, k, s, r)
  }

  lemma OutputIs(es: seq<Entry>, smallest: nat, base: bytes -> bool)
    ensures forall i :: 0 <= i < |es| && !Dropped(es, i, smallest, base) ==> es[i] in Output(es, smallest, base)
    ensures forall e :: e in Output(es, smallest, base) ==>
      exists i :: 0 <= i < |es| && e == es[i] && !Dropped(es, i, smallest, base)
  {
    var out := Kept(es, smallest, base, |es|);
    forall i | 0 <= i < |es| && !Dropped(es, i, smallest, base) ensures es[i] in Entries(out) {
      KeptHas(es, smallest, base, |es|, i);
    }
    forall e | e in Entries(out) ensures exists i :: 0 <= i < |es| && e == es[i] && !Dropped(es, i, smallest, base) {
      var a :| 0 <= a < |out| && out[a] == e;
      var i := KeptOrigin(es, smallest, base, |es|, a);
    }
  }

  /** The newest entry of a key at or below `smallest`, given some entry of the key that is. */
  lemma {:induction false} NewestBelow(cmp: Cmp, es: seq<Entry>, i: nat, smallest: nat) returns (t: nat)
    requires TotalOrder(cmp) && Sorted(cmp, es) && smallest < MAX_SEQUENCE_NUMBER && i < |es| && es[i].sn <= smallest
    ensures t <= i && es[t].ukey == es[i].ukey && es[t].sn <= smallest && es[t].sn >= es[i].sn
    ensures !Shadowed(es, t, smallest)
  {
    if Shadowed(es, i, smallest) {
      assert Before(cmp, es[i - 1], es[i]);
      t := NewestBelow(cmp, es, i - 1, smallest);
    } else {
      t := i;
    }
  }

  /** Everything of a key behind a version at or below `smallest` is shadowed. */
  lemma ShadowedBehind(cmp: Cmp, es: seq<Entry>, t: nat, i: nat, smallest: nat)
    requires TotalOrder(cmp) && Sorted(cmp, es) && smallest < MAX_SEQUENCE_NUMBER && t < i < |es|
    requires es[t].ukey == es[i].ukey && es[t].sn <= smallest
    ensures Shadowed(es, i, smallest)
  {
    assert Before(cmp, es[i - 1], es[i]);
    if t < i - 1 {
      assert Before(cmp, es[t], es[i - 1]);
    }
  }

  /** No version of the entry's key is newer and still at or below `smallest`. */
  ghost predicate NewestOld(es: seq<Entry>, e: Entry, smallest: nat) {
    forall f :: f in es && f.ukey == e.ukey && f.sn <= smallest ==> f.sn <= e.sn
  }

  /** An entry survives exactly if some snapshot needs it: above `smallest`, or the newest version that is not. */
  lemma KeptExactly(cmp: Cmp, es: seq<Entry>, smallest: nat, base: bytes -> bool, e: Entry)
    requires TotalOrder(cmp) && Sorted(cmp, es) && smallest < MAX_SEQUENCE_NUMBER
    ensures e in Kept(es, smallest, base, |es|) <==>
            && e in es && e.sn > 0
            && (e.sn > smallest || (NewestOld(es, e, smallest) && !(e.kind == Deletion && base(e.ukey))))
  {
    var out := Kept(es, smallest, base, |es|);
    if e in out {
      var a :| 0 <= a < |out| && out[a] == e;
      var i := KeptOrigin(es, smallest, base, |es|, a);
      ShadowedExactly(cmp, es, i, smallest);
    }
    if e in es && e.sn > 0 {
      var i :| 0 <= i < |es| && es[i] == e;
      ShadowedExactly(cmp, es, i, smallest);
      if !Dropped(es, i, smallest, base) {
        KeptHas(es, smallest, base, |es|, i);
      }
    }
  }

  lemma ShadowedExactly(cmp: Cmp, es: seq<Entry>, i: nat, smallest: nat)
    requires TotalOrder(cmp) && Sorted(cmp, es) && smallest < MAX_SEQUENCE_NUMBER && i < |es|
    requires es[i].sn > 0
    ensures Shadowed(es, i, smallest) <==> es[i].sn <= smallest && !NewestOld(es, es[i], smallest)
  {
    if Shadowed(es, i, smallest) {
      assert Before(cmp, es[i - 1], es[i]);
    }
    if f :| f in es && f.ukey == es[i].ukey && es[i].sn < f.sn <= smallest {
      var t :| 0 <= t < |es| && es[t] == f;
      assert t > i ==> Before(cmp, es[i], es[t]);
      ShadowedBehind(cmp, es, t, i, smallest);
    }
  }

  /**
    Why a readable entry may go: a surviving version of the same key, newer but still at or below
    every live snapshot, hides it; or it is, or is hidden by, a deletion marker of a key that no
    deeper level holds.
   */
  lemma WhyDropped(cmp: Cmp, es: seq<Entry>, i: nat, smallest: nat, base: bytes -> bool) returns (t: nat)
    requires TotalOrder(cmp) && Sorted(cmp, es) && smallest < MAX_SEQUENCE_NUMBER && i < |es| && es[i].sn > 0
    requires Dropped(es, i, smallest, base)
    ensures t <= i && es[t].ukey == es[i].ukey && es[t].sn <= smallest && es[t].sn >= es[i].sn && es[t] in Readable(es)
    ensures Dropped(es, t, smallest, base) ==> GoesAsDeletion(es, t, smallest, base)
    ensures t < i ==> es[t].sn > es[i].sn
  {
    if Shadowed(es, i, smallest) {
      assert Before(cmp, es[i - 1], es[i]);
    }
    t := NewestBelow(cmp, es, i, smallest);
    if t < i {
      assert Before(cmp, es[t], es[i]);
    }
  }

  /** Among the inputs, only the marker itself is at or below `smallest` without being hidden by it. */
  lemma MarkerIsNewest(cmp: Cmp, es: seq<Entry>, smallest: nat, base: bytes -> bool, i: nat, j: nat)
    requires TotalOrder(cmp) && Sorted(cmp, es) && smallest < MAX_SEQUENCE_NUMBER
    requires GoesAsDeletion(es, i, smallest, base)
    requires j < |es| && es[j].ukey == es[i].ukey && es[j].sn <= smallest
    ensures j == i || (j > i && es[j].sn < es[i].sn && Dropped(es, j, smallest, base))
  {
    if j < i {
      ShadowedBehind(cmp, es, j, i, smallest);
    } else if i < j {
      ShadowedBehind(cmp, es, i, j, smallest);
      assert Before(cmp, es[i], es[j]);
    }
  }

  /** A put read afterwards was read before, unless a dropped marker hid it. */
  lemma PutStaysNewest(cmp: Cmp, es: seq<Entry>, smallest: nat, base: bytes -> bool, outside: set<Entry>,
                       k: bytes, s: nat, e: Entry)
    requires TotalOrder(cmp) && Sorted(cmp, es) && smallest < MAX_SEQUENCE_NUMBER && smallest <= s
    requires !Exposes(es, smallest, base, outside)
    requires Newest(outside + Output(es, smallest, base), k, s, e) && e.kind == Value
    ensures Newest(outside + Readable(es), k, s, e)
  {
    OutputIs(es, smallest, base);
    var after := outside + Output(es, smallest, base);
    forall f | f in outside + Readable(es) && f.ukey == k && f.sn <= s ensures f.sn <= e.sn {
      if f !in after && f.sn > e.sn {
        var i :| 0 <= i < |es| && es[i] == f;
        var t := WhyDropped(cmp, es, i, smallest, base);
        assert es[t] !in after;
        if e in Output(es, smallest, base) {
          var j :| 0 <= j < |es| && e == es[j] && !Dropped(es, j, smallest, base);
          MarkerIsNewest(cmp, es, smallest, base, t, j);
        } else {
          assert ExposesPut(es, smallest, base, outside, t, e);
        }
      }
    }
  }

  /** A put read before is read afterwards. */
  lemma PutSurvives(cmp: Cmp, es: seq<Entry>, smallest: nat, base: bytes -> bool, outside: set<Entry>,
                    k: bytes, s: nat, e: Entry)
    requires TotalOrder(cmp) && Sorted(cmp, es) && smallest < MAX_SEQUENCE_NUMBER && smallest <= s
    requires Newest(outside + Readable(es), k, s, e) && e.kind == Value
    ensures Newest(outside + Output(es, smallest, base), k, s, e)
  {
    OutputIs(es, smallest, base);
    var after := outside + Output(es, smallest, base);
    if e !in after {
      var i :| 0 <= i < |es| && es[i] == e;
      var t := WhyDropped(cmp, es, i, smallest, base);
    } else {
      forall f | f in after && f.ukey == k && f.sn <= s ensures f.sn <= e.sn {
        assert f in outside + Readable(es);
      }
    }
  }

  /** The put that a dropped marker hid is read afterwards, at `smallest` already. */
  lemma HiddenPutRead(cmp: Cmp, es: seq<Entry>, smallest: nat, base: bytes -> bool, outside: set<Entry>,
                      i: nat, p: Entry)
    requires TotalOrder(cmp) && Sorted(cmp, es) && smallest < MAX_SEQUENCE_NUMBER
    requires ExposesPut(es, smallest, base, outside, i, p)
    ensures Reads(outside + Readable(es), p.ukey, smallest, None)
    ensures Reads(outside + Output(es, smallest, base), p.ukey, smallest, Some(p.val))
  {
    OutputIs(es, smallest, base);
    assert es[i] in Readable(es);
    forall e | Newest(outside + Readable(es), p.ukey, smallest, e) ensures e.kind == Deletion {
      if e !in outside {
        var j :| 0 <= j < |es| && es[j] == e;
        MarkerIsNewest(cmp, es, smallest, base, i, j);
      }
    }
    forall f | f in Output(es, smallest, base) && f.ukey == p.ukey && f.sn <= smallest ensures false {
      var j :| 0 <= j < |es| && f == es[j] && !Dropped(es, j, smallest, base);
      MarkerIsNewest(cmp, es, smallest, base, i, j);
    }
    assert Newest(outside + Output(es, smallest, base), p.ukey, smallest, p);
  }

  /** A compaction that exposes no put is not noticed at or above `smallest`. */
  lemma NothingExposed(cmp: Cmp, es: seq<Entry>, smallest: nat, base: bytes -> bool, outside: set<Entry>, s: nat)
    requires TotalOrder(cmp) && Sorted(cmp, es) && smallest < MAX_SEQUENCE_NUMBER && smallest <= s
    requires !Exposes(es, smallest, base, outside)
    ensures SameReads(outside + Readable(es), outside + Output(es, smallest, base), s)
  {
    var before, after := outside + Readable(es), outside + Output(es, smallest, base);
    forall k, e: Entry | e.kind == Value ensures Newest(before, k, s, e) <==> Newest(after, k, s, e) {
      if Newest(before, k, s, e) {
        PutSurvives(cmp, es, smallest, base, outside, k, s, e);
      } else if Newest(after, k, s, e) {
        PutStaysNewest(cmp, es, smallest, base, outside, k, s, e);
      }
    }
  }

  /**
    Readers at or above `smallest` cannot tell the outputs from the inputs, exactly if no dropped
    deletion marker hid a put that is not among the inputs.
   */
  lemma CompactionPreservesReads(cmp: Cmp, es: seq<Entry>, smallest: nat, base: bytes -> bool, outside: set<Entry>)
    requires TotalOrder(cmp) && Sorted(cmp, es) && smallest < MAX_SEQUENCE_NUMBER
    ensures (forall s :: smallest <= s ==> SameReads(outside + Readable(es), outside + Output(es, smallest, base), s))
       <==> !Exposes(es, smallest, base, outside)
  {
    if Exposes(es, smallest, base, outside) {
      var i: nat, p :| ExposesPut(es, smallest, base, outside, i, p);
      HiddenPutRead(cmp, es, smallest, base, outside, i, p);
      assert !SameReads(outside + Readable(es), outside + Output(es, smallest, base), smallest);
    } else {
      forall s | smallest <= s
        ensures SameReads(outside + Readable(es), outside + Output(es, smallest, base), s)
      {
        NothingExposed(cmp, es, smallest, base, outside, s);
      }
    }
  }

  // ----- the base-level test

  predicate InRange(cmp: Cmp, f: TableFile, k: bytes) {
    cmp(k, f.largest.ukey) != Greater && cmp(k, f.smallest.ukey) != Less
  }

  ghost predicate LevelMisses(cmp: Cmp, files: seq<TableFile>, k: bytes) {
    forall i :: 0 <= i < |files| ==> !InRange(cmp, files[i], k)
  }

  /** No file of the levels below the compaction's has `k` in its range. */
  ghost predicate IsBaseLevel(cmp: Cmp, levels: seq<seq<TableFile>>, k: bytes) {
    forall l :: 0 <= l < |levels| ==> LevelMisses(cmp, levels[l], k)
  }

  ghost function LevelEntries(levels: seq<seq<TableFile>>): set<Entry> {
    set l, i, e | 0 <= l < |levels| && 0 <= i < |levels[l]| && e in levels[l][i].entries :: e
  }

  /** When every file's range covers its entries, a base-level key has no entry in the deeper levels. */
  lemma BaseLevelIsSound(cmp: Cmp, levels: seq<seq<TableFile>>, e: Entry)
    requires TotalOrder(cmp) && e in LevelEntries(levels)
    requires forall l, i :: 0 <= l < |levels| && 0 <= i < |levels[l]| ==> Covers(cmp, levels[l][i])
    ensures !IsBaseLevel(cmp, levels, e.ukey)
  {
    var l, i :| 0 <= l < |levels| && 0 <= i < |levels[l]| && e in levels[l][i].entries;
    assert Covers(cmp, levels[l][i]);
    assert InRange(cmp, levels[l][i], e.ukey);
    assert !LevelMisses(cmp, levels[l], e.ukey);
  }

  ghost predicate EndBefore(cmp: Cmp, files: seq<TableFile>, n: nat, k: bytes) {
    n <= |files| && forall i :: 0 <= i < n ==> cmp(files[i].largest.ukey, k) == Less
  }

  /** A file that starts after `k` hides nothing behind it; a file that ends before `k` hides nothing ahead of it. */
  lemma MissesLevel(cmp: Cmp, files: seq<TableFile>, n: nat, k: bytes)
    requires TotalOrder(cmp) && AscendingFiles(cmp, files) && EndBefore(cmp, files, n, k)
    requires n < |files| ==> cmp(k, files[n].smallest.ukey) == Less
    ensures LevelMisses(cmp, files, k)
  {
    forall i | 0 <= i < |files| ensures !InRange(cmp, files[i], k) {
      if n < i {
        assert Precedes(cmp, files[n], files[i]);
        assert !Before(cmp, files[n].largest, files[n].smallest);
      }
    }
  }

  /** Searches the files of a level from position `from`, which the key has not passed yet. */
  method SearchFiles(cmp: Cmp, files: seq<TableFile>, from: nat, k: bytes) returns (hit: bool, ix: nat)
    requires TotalOrder(cmp) && AscendingFiles(cmp, files) && EndBefore(cmp, files, from, k)
    ensures EndBefore(cmp, files, ix, k) && (ix < |files| ==> cmp(k, files[ix].largest.ukey) != Greater)
    ensures hit <==> !LevelMisses(cmp, files, k)
  {
    ix := from;
    while ix < |files|
      invariant EndBefore(cmp, files, ix, k)
    {
      if cmp(k, files[ix].largest.ukey) != Greater {
        if cmp(k, files[ix].smallest.ukey) != Less {
          return true, ix;
        }
        break;
      }
      ix := ix + 1;
    }
    MissesLevel(cmp, files, ix, k);
    hit := false;
  }

  /** A compaction's view of the deeper levels: one position per level, kept between calls with ascending keys. */
  class DeeperLevels {
    const cmp: Cmp
    const levels: seq<seq<TableFile>>
    var ixs: seq<nat>
    ghost var asked: Option<bytes>

    ghost predicate Valid()
      reads this
    {
      && TotalOrder(cmp) && |ixs| == |levels|
      && forall l :: 0 <= l < |levels| ==> AscendingFiles(cmp, levels[l]) && Passed(l, ixs[l])
    }

    /** The files of level `l` before position `n` end before the last key asked for. */
    ghost predicate Passed(l: nat, n: nat)
      requires l < |levels|
      reads this
    {
      n <= |levels[l]| && forall i :: 0 <= i < n ==> asked.Some? && cmp(levels[l][i].largest.ukey, asked.value) == Less
    }

    constructor (cmp: Cmp, levels: seq<seq<TableFile>>)
      requires TotalOrder(cmp) && forall l :: 0 <= l < |levels| ==> AscendingFiles(cmp, levels[l])
      ensures Valid() && asked == None && this.cmp == cmp && this.levels == levels
    {
      this.cmp, this.levels := cmp, levels;
      ixs := seq(|levels|, _ => 0);
      asked := None;
    }

    method SearchLevel(l: nat, k: bytes) returns (hit: bool)
      requires Valid() && l < |levels| && asked == Some(k)
      modifies this
      ensures Valid() && asked == old(asked)
      ensures hit <==> !LevelMisses(cmp, levels[l], k)
      ensures ixs == old(ixs)[l := ixs[l]]
      ensures ixs[l] < |levels[l]| ==> cmp(k, levels[l][ixs[l]].largest.ukey) != Greater
    {
      var ix;
      hit, ix := SearchFiles(cmp, levels[l], ixs[l], k);
      ixs := ixs[l := ix];
    }

    method IsBaseLevelFor(k: bytes) returns (r: bool)
      requires Valid() && (asked.Some? ==> cmp(asked.value, k) != Greater)
      modifies this
      ensures Valid() && asked == Some(k)
      ensures r <==> IsBaseLevel(cmp, levels, k)
      ensures r <==> forall l, i :: 0 <= l < |levels| && 0 <= i < |levels[l]| ==>
                       cmp(k, levels[l][i].smallest.ukey) == Less || cmp(levels[l][i].largest.ukey, k) == Less
    {
      asked := Some(k);
      for l := 0 to |levels|
        invariant Valid() && asked == Some(k)
        invariant forall m :: 0 <= m < l ==> LevelMisses(cmp, levels[m], k)
      {
        var hit := SearchLevel(l, k);
        if hit {
          return false;
        }
      }
      r := true;
    }
  }

  // ----- the compaction loop

  ghost function Flatten(files: seq<TableFile>): seq<Entry> {
    if files == [] then [] else Flatten(files[..|files| - 1]) + files[|files| - 1].entries
  }

  /** Contents of the open output file after `n` input entries; a full file is closed at once. */
  ghost function OpenFile(es: seq<Entry>, smallest: nat, base: bytes -> bool, full: seq<Entry> -> bool,
                          n: nat): seq<Entry>
    requires n <= |es|
  {
    if n == 0 then []
    else
      var b := OpenFile(es, smallest, base, full, n - 1);
      if Dropped(es, n - 1, smallest, base) then b
      else if full(b + [es[n - 1]]) then []
      else b + [es[n - 1]]
  }

  ghost predicate WellFormed(cmp: Cmp, f: TableFile) {
    f.entries != [] && f.smallest == f.entries[0] && Covers(cmp, f)
  }

  ghost predicate AllWellFormed(cmp: Cmp, files: seq<TableFile>) {
    forall i :: 0 <= i < |files| ==> WellFormed(cmp, files[i])
  }

  /** A file closed because it was full: its bounds are its first and last entry. */
  ghost predicate Full(f: TableFile) {
    f.entries != [] && f.smallest == f.entries[0] && f.largest == f.entries[|f.entries| - 1]
  }

  ghost predicate AllFull(files: seq<TableFile>) {
    forall i :: 0 <= i < |files| ==> Full(files[i])
  }

  lemma {:induction false} FlattenHas(files: seq<TableFile>, i: nat, a: nat) returns (p: nat)
    requires i < |files| && a < |files[i].entries|
    ensures p < |Flatten(files)| && Flatten(files)[p] == files[i].entries[a]
  {
    var n := |files| - 1;
    if i < n {
      p := FlattenHas(files[..n], i, a);
    } else {
      p := |Flatten(files[..n])| + a;
    }
  }

  /** Sorted contents make a further file's range start after those of the full files before it end. */
  lemma RangesAscend(cmp: Cmp, files: seq<TableFile>, f: TableFile)
    requires Sorted(cmp, Flatten(files) + f.entries) && AllFull(files) && AscendingFiles(cmp, files)
    requires f.entries != [] && f.smallest == f.entries[0] && !Before(cmp, f.largest, f.smallest)
    ensures AscendingFiles(cmp, files + [f])
  {
    var flat := Flatten(files) + f.entries;
    forall i | 0 <= i < |files| ensures Precedes(cmp, files[i], f) {
      var p := FlattenHas(files, i, |files[i].entries| - 1);
      assert Before(cmp, flat[p], flat[|Flatten(files)|]);
    }
  }

  lemma SortedSplits(cmp: Cmp, a: seq<Entry>, b: seq<Entry>)
    requires Sorted(cmp, a + b)
    ensures Sorted(cmp, a) && Sorted(cmp, b)
  {
    forall i, j | 0 <= i < j < |a| ensures Before(cmp, a[i], a[j]) {
      assert Before(cmp, (a + b)[i], (a + b)[j]);
    }
    forall i, j | 0 <= i < j < |b| ensures Before(cmp, b[i], b[j]) {
      assert Before(cmp, (a + b)[|a| + i], (a + b)[|a| + j]);
    }
  }

  lemma FullCovers(cmp: Cmp, f: TableFile)
    requires TotalOrder(cmp) && Full(f) && Sorted(cmp, f.entries)
    ensures WellFormed(cmp, f) && !Before(cmp, f.largest, f.smallest)
  {
    var n := |f.entries| - 1;
    forall a | 0 <= a <= n ensures !Before(cmp, f.entries[a], f.smallest) && !Before(cmp, f.largest, f.entries[a]) {
      if a > 0 { assert Before(cmp, f.entries[0], f.entries[a]); }
      if a < n { assert Before(cmp, f.entries[a], f.entries[n]); }
    }
  }

  lemma {:induction false} FullFilesAscend(cmp: Cmp, files: seq<TableFile>)
    requires TotalOrder(cmp) && Sorted(cmp, Flatten(files)) && AllFull(files)
    ensures AscendingFiles(cmp, files) && AllWellFormed(cmp, files)
  {
    if files != [] {
      var n := |files| - 1;
      SortedSplits(cmp, Flatten(files[..n]), files[n].entries);
      FullFilesAscend(cmp, files[..n]);
      FullCovers(cmp, files[n]);
      RangesAscend(cmp, files[..n], files[n]);
      assert files[..n] + [files[n]] == files;
    }
  }

  /** Any later input key is an upper bound for what has been written. */
  lemma ClosesOver(cmp: Cmp, es: seq<Entry>, smallest: nat, base: bytes -> bool, n: nat, head: seq<Entry>, f: TableFile)
    requires TotalOrder(cmp) && Sorted(cmp, es) && 0 < n <= |es|
    requires head + f.entries == Kept(es, smallest, base, n)
    requires f.entries != [] && f.smallest == f.entries[0] && f.largest == es[n - 1]
    ensures WellFormed(cmp, f) && !Before(cmp, f.largest, f.smallest)
  {
    KeptSorted(cmp, es, smallest, base, n);
    var out := head + f.entries;
    forall a | 0 <= a < |f.entries|
      ensures !Before(cmp, f.entries[a], f.smallest) && !Before(cmp, f.largest, f.entries[a])
    {
      assert f.entries[a] == out[|head| + a];
      if a > 0 {
        assert Before(cmp, out[|head|], out[|head| + a]);
      }
      var x := KeptOrigin(es, smallest, base, n, |head| + a);
      if x < n - 1 {
        assert Before(cmp, es[x], es[n - 1]);
      }
    }
  }

  /** Output state after `n` input entries: full files, then the open one, together hold the survivors in order. */
  ghost predicate Written(es: seq<Entry>, smallest: nat, base: bytes -> bool, full: seq<Entry> -> bool,
                          n: nat, files: seq<TableFile>, builder: Option<seq<Entry>>)
  {
    && n <= |es| && AllFull(files)
    && var b := OpenFile(es, smallest, base, full, n);
    && builder == (if b == [] then None else Some(b))
    && Flatten(files) + b == Kept(es, smallest, base, n)
  }

  lemma AppendFile(files: seq<TableFile>, f: TableFile)
    ensures Flatten(files + [f]) == Flatten(files) + f.entries
    ensures AllFull(files) && Full(f) ==> AllFull(files + [f])
  {
    assert (files + [f])[..|files|] == files;
  }

  lemma AppendNothing(es: seq<Entry>)
    ensures es + [] == es
  {
  }

  lemma StaysOpen(es: seq<Entry>, smallest: nat, base: bytes -> bool, full: seq<Entry> -> bool,
                                     i: nat, files: seq<TableFile>, contents: seq<Entry>)
    requires i < |es| && !Dropped(es, i, smallest, base)
    requires AllFull(files) && Flatten(files) + contents == Kept(es, smallest, base, i)
    requires contents == OpenFile(es, smallest, base, full, i) && !full(contents + [es[i]])
    ensures Written(es, smallest, base, full, i + 1, files, Some(contents + [es[i]]))
  {
    Regroup(Flatten(files), contents, [es[i]]);
    hide Flatten, Dropped;
  }

  lemma ClosesFull(es: seq<Entry>, smallest: nat, base: bytes -> bool, full: seq<Entry> -> bool,
                                      i: nat, files: seq<TableFile>, contents: seq<Entry>)
    requires i < |es| && !Dropped(es, i, smallest, base)
    requires AllFull(files) && Flatten(files) + contents == Kept(es, smallest, base, i)
    requires contents == OpenFile(es, smallest, base, full, i) && full(contents + [es[i]])
    ensures var all := contents + [es[i]];
      Written(es, smallest, base, full, i + 1, files + [TableFile(all[0], es[i], all)], None)
  {
    var all := contents + [es[i]];
    var f := TableFile(all[0], es[i], all);
    AppendFile(files, f);
    Regroup(Flatten(files), contents, [es[i]]);
    AppendNothing(Flatten(files + [f]));
    hide Flatten, Dropped, AllFull;
  }

  /** No prefix but possibly the whole is full. */
  ghost predicate Portion(full: seq<Entry> -> bool, es: seq<Entry>) {
    forall n :: 0 < n < |es| ==> !full(es[..n])
  }

  /** Files are closed when they are full and not before; all but the last, at least, are full. */
  ghost predicate Portioned(full: seq<Entry> -> bool, files: seq<TableFile>) {
    forall i :: 0 <= i < |files| ==>
      Portion(full, files[i].entries) && (i + 1 < |files| ==> full(files[i].entries))
  }

  /** The same while the last file is still open. */
  ghost predicate Portioning(full: seq<Entry> -> bool, files: seq<TableFile>, builder: Option<seq<Entry>>) {
    && (forall i :: 0 <= i < |files| ==> Portion(full, files[i].entries) && full(files[i].entries))
    && (builder.Some? ==> Portion(full, builder.value) && !full(builder.value))
  }

  lemma PortionGrows(full: seq<Entry> -> bool, es: seq<Entry>, e: Entry)
    requires Portion(full, es) && (es != [] ==> !full(es))
    ensures Portion(full, es + [e])
  {
    forall n | 0 < n < |es + [e]| ensures !full((es + [e])[..n]) {
      assert (es + [e])[..n] == if n < |es| then es[..n] else es;
    }
  }

  /** Adds a surviving entry to the open file, opening one if there is none and closing it when full. */
  method AddSurvivor(ghost es: seq<Entry>, ghost smallest: nat, ghost base: bytes -> bool,
                     full: seq<Entry> -> bool, ghost i: nat, files: seq<TableFile>, builder: Option<seq<Entry>>,
                     key: Entry)
    returns (files': seq<TableFile>, builder': Option<seq<Entry>>)
    requires i < |es| && key == es[i] && !Dropped(es, i, smallest, base)
    requires Written(es, smallest, base, full, i, files, builder) && Portioning(full, files, builder)
    ensures Written(es, smallest, base, full, i + 1, files', builder') && Portioning(full, files', builder')
  {
    var contents := if builder.None? then [] else builder.value;
    var all := contents + [key];
    PortionGrows(full, contents, key);
    if full(all) {
      ClosesFull(es, smallest, base, full, i, files, contents);
      files', builder' := files + [TableFile(all[0], key, all)], None;
    } else {
      StaysOpen(es, smallest, base, full, i, files, contents);
      files', builder' := files, Some(all);
    }
  }

  lemma SkipsDropped(es: seq<Entry>, smallest: nat, base: bytes -> bool, full: seq<Entry> -> bool,
                                        i: nat, files: seq<TableFile>, builder: Option<seq<Entry>>)
    requires i < |es| && Written(es, smallest, base, full, i, files, builder) && Dropped(es, i, smallest, base)
    ensures Written(es, smallest, base, full, i + 1, files, builder)
  {
    assert Kept(es, smallest, base, i + 1) == Kept(es, smallest, base, i);
  }

  /** What the loop remembers of the entry before position `i`. */
  datatype KeyTrack = KeyTrack(lastSeqForKey: nat, haveUkey: bool, currentUkey: bytes)

  ghost predicate Tracks(es: seq<Entry>, i: nat, t: KeyTrack) {
    && i <= |es| && (t.haveUkey <==> i > 0 && es[i - 1].sn > 0)
    && (t.haveUkey ==> t.currentUkey == es[i - 1].ukey && t.lastSeqForKey == es[i - 1].sn)
  }

  /** The keys asked for so far do not exceed those of the first `i` entries. */
  ghost predicate AskedUpTo(es: seq<Entry>, i: nat, deeper: DeeperLevels)
    reads deeper
  {
    i <= |es| && (deeper.asked.Some? ==> i > 0 && deeper.cmp(deeper.asked.value, es[i - 1].ukey) != Greater)
  }

  /** Decides whether the entry at `i` can be omitted. */
  method Omit(es: seq<Entry>, i: nat, smallest: nat, deeper: DeeperLevels, t: KeyTrack)
    returns (omit: bool, t': KeyTrack)
    requires deeper.Valid() && Sorted(deeper.cmp, es) && i < |es|
    requires Tracks(es, i, t) && AskedUpTo(es, i, deeper)
    modifies deeper
    ensures deeper.Valid() && Tracks(es, i + 1, t') && AskedUpTo(es, i + 1, deeper)
    ensures omit <==> Dropped(es, i, smallest, k => IsBaseLevel(deeper.cmp, deeper.levels, k))
  {
    var key := es[i];
    if i > 0 {
      assert Before(deeper.cmp, es[i - 1], es[i]);
    }
    if key.sn == 0 {
      return true, KeyTrack(MAX_SEQUENCE_NUMBER, false, []);
    }
    t' := t;
    if !t.haveUkey || deeper.cmp(key.ukey, t.currentUkey) != Equal {
      t' := KeyTrack(MAX_SEQUENCE_NUMBER, true, key.ukey);
    }
    assert t'.lastSeqForKey == NewerSeq(es, i);
    omit := t'.lastSeqForKey <= smallest;
    t' := t'.(lastSeqForKey := key.sn);
    if !omit && key.kind == Deletion && key.sn <= smallest {
      omit := deeper.IsBaseLevelFor(key.ukey);
    }
  }

  datatype Outcome = Done(files: seq<TableFile>) | Panicked

  /** The entry at `i` asks to finish an output file although none is open. */
  ghost predicate StopsWithNoneOpen(es: seq<Entry>, smallest: nat, base: bytes -> bool, full: seq<Entry> -> bool,
                                    stops: nat -> bool, i: nat)
  {
    i < |es| && stops(i) && OpenFile(es, smallest, base, full, i) == []
  }

  /**
    The loop of do_compaction_work on readable tables. `stops` answers should_stop_before for the
    entry at an input position, `full` whether the builder's size estimate exceeds the maximum file
    size. Finishing an output when none is open fails an assertion.
   */
  method CompactEntries(es: seq<Entry>, smallest: nat, deeper: DeeperLevels, stops: nat -> bool,
                        full: seq<Entry> -> bool,
                        ghost base: bytes -> bool)
    returns (ok: bool, files: seq<TableFile>, builder: Option<seq<Entry>>)
    requires deeper.Valid() && deeper.asked == None && Sorted(deeper.cmp, es)
    requires base == (k => IsBaseLevel(deeper.cmp, deeper.levels, k))
    modifies deeper
    ensures !ok <==> exists i: nat :: StopsWithNoneOpen(es, smallest, base, full, stops, i)
    ensures ok ==> Written(es, smallest, base, full, |es|, files, builder) && Portioning(full, files, builder)
  {
    files, builder := [], None;
    var track := KeyTrack(MAX_SEQUENCE_NUMBER, false, []);
    var i := 0;
    while i < |es|
      invariant 0 <= i <= |es| && deeper.Valid() && AskedUpTo(es, i, deeper) && Tracks(es, i, track)
      invariant Written(es, smallest, base, full, i, files, builder) && Portioning(full, files, builder)
      invariant forall j: nat :: j < i ==> !StopsWithNoneOpen(es, smallest, base, full, stops, j)
    {
      if stops(i) && builder.None? {
        assert StopsWithNoneOpen(es, smallest, base, full, stops, i);
        return false, files, builder;
      }
      var omit;
      omit, track := Omit(es, i, smallest, deeper, track);
      if omit {
        SkipsDropped(es, smallest, base, full, i, files, builder);
      } else {
        files, builder := AddSurvivor(es, smallest, base, full, i, files, builder, es[i]);
      }
      i := i + 1;
    }
    ok := true;
  }

  /** Files start at their first entry and end at their last, except one closed at the end of the input. */
  ghost predicate Bounded(full: seq<Entry> -> bool, es: seq<Entry>, files: seq<TableFile>) {
    forall i :: 0 <= i < |files| ==>
      && files[i].entries != [] && files[i].smallest == files[i].entries[0]
      && (full(files[i].entries) ==> files[i].largest == files[i].entries[|files[i].entries| - 1])
      && (!full(files[i].entries) ==> es != [] && files[i].largest == es[|es| - 1])
  }

  ghost predicate EndsIn(es: seq<Entry>, files: seq<TableFile>) {
    forall i :: 0 <= i < |files| ==> files[i].largest in es
  }

  lemma FullFilesEndIn(es: seq<Entry>, smallest: nat, base: bytes -> bool, files: seq<TableFile>, rest: seq<Entry>)
    requires AllFull(files) && Flatten(files) + rest == Kept(es, smallest, base, |es|)
    ensures EndsIn(es, files)
  {
    forall i | 0 <= i < |files| ensures files[i].largest in es {
      var p := FlattenHas(files, i, |files[i].entries| - 1);
      assert (Flatten(files) + rest)[p] == files[i].largest;
      var j := KeptOrigin(es, smallest, base, |es|, p);
    }
  }

  /** The last file is closed at the last key read, which may itself have been dropped. */
  lemma LastFile(cmp: Cmp, es: seq<Entry>, smallest: nat, base: bytes -> bool, files: seq<TableFile>, f: TableFile)
    requires TotalOrder(cmp) && Sorted(cmp, es) && es != [] && AllFull(files)
    requires Flatten(files) + f.entries == Kept(es, smallest, base, |es|)
    requires f.entries != [] && f.smallest == f.entries[0] && f.largest == es[|es| - 1]
    ensures Flatten(files + [f]) == Kept(es, smallest, base, |es|)
    ensures AscendingFiles(cmp, files + [f]) && AllWellFormed(cmp, files + [f])
  {
    AppendFile(files, f);
    assert AscendingFiles(cmp, files) && AllWellFormed(cmp, files) && Sorted(cmp, Flatten(files) + f.entries) by {
      KeptSorted(cmp, es, smallest, base, |es|);
      SortedSplits(cmp, Flatten(files), f.entries);
      FullFilesAscend(cmp, files);
    }
    ClosesOver(cmp, es, smallest, base, |es|, Flatten(files), f);
    RangesAscend(cmp, files, f);
  }

  /**
    A compaction writes exactly the surviving entries, in order, to files with ascending disjoint
    ranges that cover their contents; each is closed at the first entry that makes it full.
   */
  method DoCompactionWork(es: seq<Entry>, smallest: nat, deeper: DeeperLevels, stops: nat -> bool,
                          full: seq<Entry> -> bool)
    returns (r: Outcome)
    requires deeper.Valid() && deeper.asked == None && Sorted(deeper.cmp, es)
    modifies deeper
    ensures var base := k => IsBaseLevel(deeper.cmp, deeper.levels, k);
      && (r.Panicked? <==> exists i: nat :: StopsWithNoneOpen(es, smallest, base, full, stops, i))
      && (r.Done? ==>
            && Flatten(r.files) == Kept(es, smallest, base, |es|)
            && AscendingFiles(deeper.cmp, r.files) && AllWellFormed(deeper.cmp, r.files)
            && Portioned(full, r.files) && EndsIn(es, r.files) && Bounded(full, es, r.files))
  {
    ghost var base := k => IsBaseLevel(deeper.cmp, deeper.levels, k);
    var ok, files, builder := CompactEntries(es, smallest, deeper, stops, full, base);
    if !ok {
      return Panicked;
    }
    KeptSorted(deeper.cmp, es, smallest, base, |es|);
    FullFilesEndIn(es, smallest, base, files, if builder.Some? then builder.value else []);
    if builder.Some? {
      var f := TableFile(builder.value[0], es[|es| - 1], builder.value);
      LastFile(deeper.cmp, es, smallest, base, files, f);
      files := files + [f];
    } else {
      assert Flatten(files) == Kept(es, smallest, base, |es|);
      FullFilesAscend(deeper.cmp, files);
    }
    r := Done(files);
  }

  /** A dropped marker's key has no entry in the deeper levels, so only what else stays can be exposed. */
  lemma DeeperNotExposed(cmp: Cmp, es: seq<Entry>, smallest: nat, levels: seq<seq<TableFile>>, outside: set<Entry>)
    requires TotalOrder(cmp)
    requires forall l, i :: 0 <= l < |levels| && 0 <= i < |levels[l]| ==> Covers(cmp, levels[l][i])
    ensures var base := k => IsBaseLevel(cmp, levels, k);
      Exposes(es, smallest, base, outside + LevelEntries(levels)) <==> Exposes(es, smallest, base, outside)
  {
    var base := k => IsBaseLevel(cmp, levels, k);
    forall d | d in LevelEntries(levels) ensures !base(d.ukey) {
      BaseLevelIsSound(cmp, levels, d);
    }
    forall i: nat, p | GoesAsDeletion(es, i, smallest, base)
      ensures Newest(outside + LevelEntries(levels), es[i].ukey, smallest, p)
         <==> Newest(outside, es[i].ukey, smallest, p)
    {
    }
    forall i: nat, p
      ensures ExposesPut(es, smallest, base, outside + LevelEntries(levels), i, p)
         <==> ExposesPut(es, smallest, base, outside, i, p)
    {
    }
  }

  /**
    What is installed reads like what it replaces at or above `smallest`, exactly if no dropped
    deletion marker hid a put in `outside`: the upper levels and the files that stay in the two
    levels compacted.
   */
  lemma InstalledFilesPreserveReads(cmp: Cmp, es: seq<Entry>, smallest: nat, levels: seq<seq<TableFile>>,
                                    files: seq<TableFile>, outside: set<Entry>)
    requires TotalOrder(cmp) && Sorted(cmp, es) && smallest < MAX_SEQUENCE_NUMBER
    requires forall l, i :: 0 <= l < |levels| && 0 <= i < |levels[l]| ==> Covers(cmp, levels[l][i])
    requires Flatten(files) == Kept(es, smallest, k => IsBaseLevel(cmp, levels, k), |es|)
    ensures var deeper := LevelEntries(levels);
      (forall s :: smallest <= s ==>
           SameReads(outside + deeper + Readable(es), outside + deeper + Entries(Flatten(files)), s))
      <==> !Exposes(es, smallest, k => IsBaseLevel(cmp, levels, k), outside)
  {
    var base := k => IsBaseLevel(cmp, levels, k);
    assert Entries(Flatten(files)) == Output(es, smallest, base);
    DeeperNotExposed(cmp, es, smallest, levels, outside);
    CompactionPreservesReads(cmp, es, smallest, base, outside + LevelEntries(levels));
  }

  /** A smallest sequence number at the maximum would take every first version for shadowed and drop everything. */
  lemma {:induction false} MaximumDropsEverything(es: seq<Entry>, smallest: nat, base: bytes -> bool, n: nat)
    requires smallest >= MAX_SEQUENCE_NUMBER && n <= |es|
    requires forall i :: 0 <= i < |es| ==> es[i].sn <= MAX_SEQUENCE_NUMBER
    ensures Kept(es, smallest, base, n) == []
  {
    if n > 0 {
      MaximumDropsEverything(es, smallest, base, n - 1);
      assert Shadowed(es, n - 1, smallest);
    }
  }
}
