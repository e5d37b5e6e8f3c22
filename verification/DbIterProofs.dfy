/**
  The database iterator against a plain cursor over the snapshot view: over an exact inner iterator
  every run agrees; over one that passes over deletions on its way back, exactly when a run does.
 */
module DbIterProofs {
  import opened Order
  import opened Versions
  import opened Scan
  import opened DbIter

  // ----- specification: a cursor over a list of pairs

  /** Number of leading pairs of an ascending list whose keys are below `key`. */
  ghost function LowerBound(cmp: Cmp, view: seq<(bytes, bytes)>, key: bytes): (i: nat)
    ensures i <= |view|
    ensures forall j :: 0 <= j < i ==> cmp(view[j].0, key) == Less
    ensures i < |view| ==> cmp(view[i].0, key) != Less
  {
    if view == [] || cmp(view[0].0, key) != Less then 0
    else
      var i := LowerBound(cmp, view[1..], key);
      assert forall j :: 0 < j < i + 1 ==> view[j] == view[1..][j - 1];
      i + 1
  }

  /**
    What one call does to a cursor over `view`; -1 stands for an invalid iterator. Advancing an
    invalid iterator starts over, moving back from an invalid iterator does nothing.
   */
  ghost function Moved(cmp: Cmp, view: seq<(bytes, bytes)>, c: int, op: Op): (c': int)
    requires -1 <= c < |view|
    ensures -1 <= c' < |view|
  {
    match op
    case Seek(key) => if LowerBound(cmp, view, key) < |view| then LowerBound(cmp, view, key) else -1
    case SeekToFirst => if |view| > 0 then 0 else -1
    case Advance => if c + 1 < |view| then c + 1 else -1
    case Prev => if c >= 0 then c - 1 else -1
  }

  /** What a client of the cursor sees after each call of a run. */
  ghost function Observed(cmp: Cmp, view: seq<(bytes, bytes)>, c: int, ops: seq<Op>): seq<Option<(bytes, bytes)>>
    requires -1 <= c < |view|
    decreases ops
  {
    if ops == [] then []
    else
      var c' := Moved(cmp, view, c, ops[0]);
      [if c' < 0 then None else Some(view[c'])] + Observed(cmp, view, c', ops[1..])
  }

  /** The iterator shows the pair the cursor is at. */
  ghost predicate Agrees(es: seq<Entry>, snap: nat, pl: Place, c: int) {
    if pl.head == -1 then c == -1 else Shown(es, snap, pl.head) && c == |ViewUpTo(es, snap, pl.head)|
  }

  lemma AgreeingSight(es: seq<Entry>, snap: nat, pl: Place, c: int)
    requires Agrees(es, snap, pl, c)
    ensures -1 <= c < |View(es, snap)|
    ensures Sight(es, pl) == if c < 0 then None else Some(View(es, snap)[c])
  {
    if pl.head != -1 {
      ViewAt(es, snap, pl.head);
    }
  }

  /** Standing on the first shown entry from `from` on is being at the pair counted up to `from`. */
  lemma OnShownAgrees(es: seq<Entry>, snap: nat, skips: bool, from: nat)
    requires from <= |es|
    ensures var c := |ViewUpTo(es, snap, from)|;
      Agrees(es, snap, OnShown(es, snap, skips, from), if c < |View(es, snap)| then c else -1)
  {
    var h := NextShown(es, snap, from);
    ViewSkips(es, snap, from, if h >= 0 then h else |es|);
    if h >= 0 {
      ViewAt(es, snap, h);
    }
  }

  /** Shown entries before where a seek starts are below its key, the others are not. */
  lemma SeekSplits(cmp: Cmp, es: seq<Entry>, snap: nat, key: bytes, i: nat)
    requires Stream(cmp, es) && Shown(es, snap, i)
    ensures i < SeekFrom(cmp, es, snap, key) <==> cmp(es[i].ukey, key) == Less
  {
    var p := SeekFrom(cmp, es, snap, key);
    if p <= i {
      KeysAscend(cmp, es, p, i);
    }
  }

  /** A seek counts the pairs below the key. */
  lemma SeekCounts(cmp: Cmp, es: seq<Entry>, snap: nat, key: bytes)
    requires Stream(cmp, es)
    ensures |ViewUpTo(es, snap, SeekFrom(cmp, es, snap, key))| == LowerBound(cmp, View(es, snap), key)
  {
    hide ViewUpTo, Shown, Stream, SeekFrom;
    var p, view := SeekFrom(cmp, es, snap, key), View(es, snap);
    var r := |ViewUpTo(es, snap, p)|;
    ViewPrefix(es, snap, p, |es|);
    forall j | 0 <= j < r ensures cmp(view[j].0, key) == Less {
      var i := ViewOrigin(es, snap, p, j);
      SeekSplits(cmp, es, snap, key, i);
    }
    if r < |view| {
      var i := ViewOrigin(es, snap, |es|, r);
      SeekSplits(cmp, es, snap, key, i);
      if i < p { ShownCounts(es, snap, i, p); }
    }
  }

  lemma ShownCounts(es: seq<Entry>, snap: nat, i: nat, p: nat)
    requires Shown(es, snap, i) && i < p <= |es|
    ensures |ViewUpTo(es, snap, i)| < |ViewUpTo(es, snap, p)|
  {
    ViewPrefix(es, snap, i + 1, p);
  }

  /** Seeks agree whatever was before and whatever the inner iterator skips. */
  lemma SeekAgrees(cmp: Cmp, es: seq<Entry>, snap: nat, skips: bool, pl: Place, c: int, op: Op)
    requires Stream(cmp, es) && Standing(es, snap, skips, pl) && -1 <= c < |View(es, snap)|
             && (op.Seek? || op.SeekToFirst?)
    ensures Agrees(es, snap, Went(cmp, es, snap, skips, pl, op), Moved(cmp, View(es, snap), c, op))
  {
    hide OnShown;
    match op
    case Seek(key) =>
      OnShownAgrees(es, snap, skips, SeekFrom(cmp, es, snap, key));
      SeekCounts(cmp, es, snap, key);
    case SeekToFirst => OnShownAgrees(es, snap, skips, 0);
  }

  /** Advancing agrees exactly unless it follows a step back over the deletion of another key. */
  lemma AdvanceAgrees(cmp: Cmp, es: seq<Entry>, snap: nat, skips: bool, pl: Place, c: int)
    requires Stream(cmp, es) && Standing(es, snap, skips, pl) && Agrees(es, snap, pl, c)
    ensures -1 <= c < |View(es, snap)|
    ensures Agrees(es, snap, Went(cmp, es, snap, skips, pl, Op.Advance), Moved(cmp, View(es, snap), c, Op.Advance))
       <==> !(skips && pl.head >= 0 && pl.back && Stray(es, snap, 0, pl.head))
  {
    AgreeingSight(es, snap, pl, c);
    if pl.head == -1 {
      OnShownAgrees(es, snap, skips, 0);
    } else if pl.back && skips && Stray(es, snap, 0, pl.head) {
      IsNextShown(es, snap, pl.head, pl.head);
    } else {
      OnShownAgrees(es, snap, skips, pl.head + 1);
    }
  }

  /** The shown entry before another stands one place before it in the view. */
  lemma OneBefore(es: seq<Entry>, snap: nat, w: int, h: nat)
    requires Shown(es, snap, h) && -1 <= w < h && (w == -1 || Shown(es, snap, w)) && NoneShown(es, snap, w + 1, h)
    ensures |ViewUpTo(es, snap, h)| == if w == -1 then 0 else |ViewUpTo(es, snap, w)| + 1
  {
    ViewSkips(es, snap, w + 1, h);
  }

  lemma NoneOfferedNoneShown(es: seq<Entry>, snap: nat, skips: bool, from: int, end: int)
    requires NoneOffered(es, snap, skips, from, end)
    ensures NoneShown(es, snap, from, end)
  {
    forall i | from <= i < end ensures !Shown(es, snap, i) {
      ShownIsOffered(es, snap, skips, i);
    }
  }

  /**
    Going back agrees exactly unless the inner iterator passes over deletions and the nearest other
    key with a visible put has been deleted.
   */
  lemma PrevAgrees(cmp: Cmp, es: seq<Entry>, snap: nat, skips: bool, pl: Place, c: int)
    requires Stream(cmp, es) && Standing(es, snap, skips, pl) && Agrees(es, snap, pl, c)
    ensures -1 <= c < |View(es, snap)|
    ensures Agrees(es, snap, Went(cmp, es, snap, skips, pl, Op.Prev), Moved(cmp, View(es, snap), c, Op.Prev))
       <==> !(skips && pl.head >= 0 && Buried(es, snap, pl.head))
  {
    AgreeingSight(es, snap, pl, c);
    if pl.head != -1 {
      var w := LastOffered(es, snap, skips, pl.head);
      NoneOfferedNoneShown(es, snap, skips, w + 1, pl.head);
      if skips {
        LandsOnShown(cmp, es, snap, pl.head);
      } else {
        ShownIsOffered(es, snap, skips, w);
      }
      if w == -1 || Shown(es, snap, w) {
        OneBefore(es, snap, w, pl.head);
      }
    }
  }

  /** Over an exact inner iterator, every run of calls shows what a cursor over the snapshot view shows. */
  lemma {:induction false} ExactRunsAgree(cmp: Cmp, es: seq<Entry>, snap: nat, pl: Place, c: int, ops: seq<Op>)
    requires Stream(cmp, es) && Standing(es, snap, false, pl) && Agrees(es, snap, pl, c)
    ensures -1 <= c < |View(es, snap)|
    ensures Sights(cmp, es, snap, false, pl, ops) == Observed(cmp, View(es, snap), c, ops)
    decreases ops
  {
    AgreeingSight(es, snap, pl, c);
    if ops != [] {
      StepAgrees(cmp, es, snap, false, pl, c, ops[0]);
      hide Agrees, Went, Moved, Stream;
      var pl', c' := Went(cmp, es, snap, false, pl, ops[0]), Moved(cmp, View(es, snap), c, ops[0]);
      AgreeingSight(es, snap, pl', c');
      ExactRunsAgree(cmp, es, snap, pl', c', ops[1..]);
    }
  }

  /** A step that goes wrong: back onto a deleted key, or on after stepping back over a deletion. */
  ghost predicate Misses(es: seq<Entry>, snap: nat, skips: bool, pl: Place, op: Op)
  {
    && skips && pl.head >= 0
    && ((op.Prev? && Buried(es, snap, pl.head)) || (op.Advance? && pl.back && Stray(es, snap, 0, pl.head)))
  }

  lemma StepAgrees(cmp: Cmp, es: seq<Entry>, snap: nat, skips: bool, pl: Place, c: int, op: Op)
    requires Stream(cmp, es) && Standing(es, snap, skips, pl) && Agrees(es, snap, pl, c)
    ensures -1 <= c < |View(es, snap)|
    ensures Agrees(es, snap, Went(cmp, es, snap, skips, pl, op), Moved(cmp, View(es, snap), c, op))
       <==> !Misses(es, snap, skips, pl, op)
  {
    AgreeingSight(es, snap, pl, c);
    hide Agrees, Went, Moved, Stream;
    match op
    case Advance => AdvanceAgrees(cmp, es, snap, skips, pl, c);
    case Prev => PrevAgrees(cmp, es, snap, skips, pl, c);
    case _ => SeekAgrees(cmp, es, snap, skips, pl, c, op);
  }

  // ----- over a memtable

  /**
    No key that is shown has a deleted key with a visible put next before it, and none but the last
    has the deletion of another key right before it.
   */
  ghost predicate Clean(es: seq<Entry>, snap: nat) {
    forall h :: Shown(es, snap, h) ==> CleanAt(es, snap, h)
  }

  ghost predicate CleanAt(es: seq<Entry>, snap: nat, h: nat) {
    !Buried(es, snap, h) && forall g :: Shown(es, snap, g) && g < h ==> !Stray(es, snap, 0, g)
  }

  const START := Place(-1, false)

  lemma {:induction false} CleanRunsAgree(cmp: Cmp, es: seq<Entry>, snap: nat, pl: Place, c: int, ops: seq<Op>)
    requires Stream(cmp, es) && Standing(es, snap, true, pl) && Agrees(es, snap, pl, c) && Clean(es, snap)
    requires pl.back ==> exists h: nat :: Shown(es, snap, h) && pl.head < h
    ensures -1 <= c < |View(es, snap)|
    ensures Sights(cmp, es, snap, true, pl, ops) == Observed(cmp, View(es, snap), c, ops)
    decreases ops
  {
    AgreeingSight(es, snap, pl, c);
    if ops != [] {
      StepAgrees(cmp, es, snap, true, pl, c, ops[0]);
      CleanDoesNotMiss(es, snap, pl, ops[0]);
      GoesBackBefore(cmp, es, snap, pl, ops[0]);
      hide Agrees, Went, Moved, Stream, Clean;
      var pl', c' := Went(cmp, es, snap, true, pl, ops[0]), Moved(cmp, View(es, snap), c, ops[0]);
      AgreeingSight(es, snap, pl', c');
      CleanRunsAgree(cmp, es, snap, pl', c', ops[1..]);
    }
  }

  lemma CleanDoesNotMiss(es: seq<Entry>, snap: nat, pl: Place, op: Op)
    requires Clean(es, snap) && Standing(es, snap, true, pl) && (pl.head == -1 || Shown(es, snap, pl.head))
    requires pl.back ==> exists h: nat :: Shown(es, snap, h) && pl.head < h
    ensures !Misses(es, snap, true, pl, op)
  {
    if pl.head >= 0 {
      assert CleanAt(es, snap, pl.head);
      if pl.back {
        var h: nat :| Shown(es, snap, h) && pl.head < h;
        assert CleanAt(es, snap, h);
      }
    }
  }

  lemma GoesBackBefore(cmp: Cmp, es: seq<Entry>, snap: nat, pl: Place, op: Op)
    requires Standing(es, snap, true, pl) && (pl.head == -1 || Shown(es, snap, pl.head))
    ensures var pl' := Went(cmp, es, snap, true, pl, op);
      pl'.back ==> exists h: nat :: Shown(es, snap, h) && pl'.head < h
  {
  }

  /** Seeking a shown key finds it. */
  lemma SeekFinds(cmp: Cmp, es: seq<Entry>, snap: nat, skips: bool, h: nat)
    requires Stream(cmp, es) && Shown(es, snap, h)
    ensures Went(cmp, es, snap, skips, START, Op.Seek(es[h].ukey)) == Place(h, false)
  {
    var p := SeekFrom(cmp, es, snap, es[h].ukey);
    assert p <= h;
    forall i | p <= i < h ensures !Shown(es, snap, i) {
      KeysAscend(cmp, es, p, i);
      KeysAscend(cmp, es, i, h);
    }
    IsNextShown(es, snap, p, h);
  }

  /** Back from a key whose neighbour is deleted: the iterator shows the deleted key. */
  lemma BackOntoDeleted(cmp: Cmp, es: seq<Entry>, snap: nat, h: nat)
    requires Stream(cmp, es) && Shown(es, snap, h) && Buried(es, snap, h)
    ensures var ops := [Op.Seek(es[h].ukey), Op.Prev];
      Sights(cmp, es, snap, true, START, ops) != Observed(cmp, View(es, snap), -1, ops)
  {
    var ops := [Op.Seek(es[h].ukey), Op.Prev];
    var d, v :| BuriedBy(es, snap, h, d, v);
    var w := LastOffered(es, snap, true, h);
    LandsOnBuried(cmp, es, snap, h, d, v, w);
    SeekFinds(cmp, es, snap, true, h);
    SeekAgrees(cmp, es, snap, true, START, -1, ops[0]);
    var c := Moved(cmp, View(es, snap), -1, ops[0]);
    AgreeingSight(es, snap, Place(h, false), c);
    TwoSteps(cmp, es, snap, ops);
    DeletedNotInView(cmp, es, snap, d, w);
  }

  lemma DeletedNotInView(cmp: Cmp, es: seq<Entry>, snap: nat, d: nat, w: nat)
    requires Stream(cmp, es) && d < |es| && w < |es| && Visible(es, snap, d) && es[d].kind == Deletion
             && es[d].ukey == es[w].ukey
    requires forall j :: 0 <= j < d && es[j].ukey == es[d].ukey ==> !Visible(es, snap, j)
    ensures forall c :: 0 <= c < |View(es, snap)| ==> View(es, snap)[c].0 != es[w].ukey
  {
    forall c | 0 <= c < |View(es, snap)| ensures View(es, snap)[c].0 != es[w].ukey {
      var i := ViewOrigin(es, snap, |es|, c);
      assert Visible(es, snap, i);
    }
  }

  lemma Unrolled(cmp: Cmp, es: seq<Entry>, snap: nat, pl: Place, c: int, ops: seq<Op>)
    requires ops != [] && Standing(es, snap, true, pl) && -1 <= c < |View(es, snap)|
    ensures var pl' := Went(cmp, es, snap, true, pl, ops[0]);
      Sights(cmp, es, snap, true, pl, ops) == [Sight(es, pl')] + Sights(cmp, es, snap, true, pl', ops[1..])
    ensures var c' := Moved(cmp, View(es, snap), c, ops[0]);
      Observed(cmp, View(es, snap), c, ops)
      == [if c' < 0 then None else Some(View(es, snap)[c'])] + Observed(cmp, View(es, snap), c', ops[1..])
  {
  }

  lemma TwoSteps(cmp: Cmp, es: seq<Entry>, snap: nat, ops: seq<Op>)
    requires |ops| >= 2
    ensures var pl := Went(cmp, es, snap, true, START, ops[0]);
      var c := Moved(cmp, View(es, snap), -1, ops[0]);
      var c' := Moved(cmp, View(es, snap), c, ops[1]);
      && |Sights(cmp, es, snap, true, START, ops)| >= 2 && |Observed(cmp, View(es, snap), -1, ops)| >= 2
      && Sights(cmp, es, snap, true, START, ops)[1] == Sight(es, Went(cmp, es, snap, true, pl, ops[1]))
      && Observed(cmp, View(es, snap), -1, ops)[1] == if c' < 0 then None else Some(View(es, snap)[c'])
  {
    var pl, c := Went(cmp, es, snap, true, START, ops[0]), Moved(cmp, View(es, snap), -1, ops[0]);
    hide Went, Moved, Sights, Observed;
    Unrolled(cmp, es, snap, START, -1, ops);
    Unrolled(cmp, es, snap, pl, c, ops[1..]);
  }

  lemma ThreeSteps(cmp: Cmp, es: seq<Entry>, snap: nat, ops: seq<Op>)
    requires |ops| >= 3
    ensures var pl := Went(cmp, es, snap, true, START, ops[0]);
      var pl' := Went(cmp, es, snap, true, pl, ops[1]);
      var c := Moved(cmp, View(es, snap), -1, ops[0]);
      var c' := Moved(cmp, View(es, snap), c, ops[1]);
      var c'' := Moved(cmp, View(es, snap), c', ops[2]);
      && |Sights(cmp, es, snap, true, START, ops)| >= 3 && |Observed(cmp, View(es, snap), -1, ops)| >= 3
      && Sights(cmp, es, snap, true, START, ops)[2] == Sight(es, Went(cmp, es, snap, true, pl', ops[2]))
      && Observed(cmp, View(es, snap), -1, ops)[2] == if c'' < 0 then None else Some(View(es, snap)[c''])
  {
    var pl, c := Went(cmp, es, snap, true, START, ops[0]), Moved(cmp, View(es, snap), -1, ops[0]);
    hide Went, Moved, Sights, Observed;
    Unrolled(cmp, es, snap, START, -1, ops);
    Unrolled(cmp, es, snap, pl, c, ops[1..]);
    var pl', c' := Went(cmp, es, snap, true, pl, ops[1]), Moved(cmp, View(es, snap), c, ops[1]);
    Unrolled(cmp, es, snap, pl', c', ops[2..]);
    assert ops[1..][1..] == ops[2..];
  }

  /** Back over the deletion of another key and on again: the iterator stays where it is. */
  lemma StuckBehindDeletion(cmp: Cmp, es: seq<Entry>, snap: nat, g: nat, h: nat)
    requires Stream(cmp, es) && Shown(es, snap, g) && Stray(es, snap, 0, g) && Shown(es, snap, h) && g < h
    requires NoneShown(es, snap, g + 1, h) && !Buried(es, snap, h)
    ensures var ops := [Op.Seek(es[h].ukey), Op.Prev, Op.Advance];
      Sights(cmp, es, snap, true, START, ops) != Observed(cmp, View(es, snap), -1, ops)
  {
    var ops := [Op.Seek(es[h].ukey), Op.Prev, Op.Advance];
    SeekFinds(cmp, es, snap, true, h);
    SeekAgrees(cmp, es, snap, true, START, -1, ops[0]);
    var c := Moved(cmp, View(es, snap), -1, ops[0]);
    PrevAgrees(cmp, es, snap, true, Place(h, false), c);
    var pl, c' := Went(cmp, es, snap, true, Place(h, false), Op.Prev), Moved(cmp, View(es, snap), c, Op.Prev);
    BackOnto(es, snap, g, h);
    assert pl == Place(g, true);
    IsNextShown(es, snap, g, g);
    AgreeingSight(es, snap, Place(h, false), c);
    AgreeingSight(es, snap, pl, c');
    ThreeSteps(cmp, es, snap, ops);
    KeysAscend(cmp, es, g, h);
  }

  lemma BackOnto(es: seq<Entry>, snap: nat, g: nat, h: nat)
    requires Shown(es, snap, g) && Shown(es, snap, h) && g < h && NoneShown(es, snap, g + 1, h)
    requires var w := LastOffered(es, snap, true, h); w == -1 || Shown(es, snap, w)
    ensures LastOffered(es, snap, true, h) == g
  {
    ShownIsOffered(es, snap, true, g);
  }

  /** The shown entry next after `g`. */
  lemma NextAfter(es: seq<Entry>, snap: nat, g: nat, h: nat) returns (n: nat)
    requires g < h && Shown(es, snap, h)
    ensures g < n <= h && Shown(es, snap, n) && NoneShown(es, snap, g + 1, n)
  {
    n := NextShown(es, snap, g + 1);
  }

  /**
    Over an inner iterator that passes over deletions on its way back, every run from the start
    shows what a cursor over the snapshot view shows exactly if the stream is `Clean`.
   */
  lemma RunsAgreeExactlyIfClean(cmp: Cmp, es: seq<Entry>, snap: nat)
    requires Stream(cmp, es)
    ensures Clean(es, snap)
       <==> forall ops :: Sights(cmp, es, snap, true, START, ops) == Observed(cmp, View(es, snap), -1, ops)
  {
    if Clean(es, snap) {
      forall ops ensures Sights(cmp, es, snap, true, START, ops) == Observed(cmp, View(es, snap), -1, ops) {
        CleanRunsAgree(cmp, es, snap, START, -1, ops);
      }
    } else {
      var h :| Shown(es, snap, h) && !CleanAt(es, snap, h);
      if Buried(es, snap, h) {
        BackOntoDeleted(cmp, es, snap, h);
      } else {
        var g :| Shown(es, snap, g) && g < h && Stray(es, snap, 0, g);
        var n := NextAfter(es, snap, g, h);
        if Buried(es, snap, n) {
          BackOntoDeleted(cmp, es, snap, n);
        } else {
          StuckBehindDeletion(cmp, es, snap, g, n);
        }
      }
    }
  }

  /**
    The iterator runs as a cursor over the snapshot view: always over an exact inner iterator, over a memtable
    if clean.
   */
  method ShowsSnapshot(cmp: Cmp, es: seq<Entry>, snap: nat, skips: bool, ops: seq<Op>)
    returns (seen: seq<Option<(bytes, bytes)>>)
    requires Stream(cmp, es) && (skips ==> Clean(es, snap))
    ensures seen == Observed(cmp, View(es, snap), -1, ops)
  {
    hide Stream, Clean, Sights, Observed;
    var it := new DBIterator(cmp, es, snap, skips);
    seen := Replay(it, ops);
    if skips {
      CleanRunsAgree(cmp, es, snap, START, -1, ops);
    } else {
      ExactRunsAgree(cmp, es, snap, START, -1, ops);
    }
  }

  // ----- two runs that go wrong

  const DELETED_FIRST: seq<Entry> :=
    [Entry([1], 2, Deletion, []), Entry([1], 1, Value, [7]), Entry([2], 3, Value, [8])]

  const DELETED_BEFORE: seq<Entry> :=
    [Entry([1], 1, Deletion, []), Entry([2], 2, Value, [7]), Entry([3], 3, Value, [8])]

  lemma DeletedFirst(cmp: Cmp)
    requires TotalOrder(cmp) && cmp([1], [2]) == Less
    ensures var es := DELETED_FIRST; Stream(cmp, es) && Shown(es, 3, 2) && LastOffered(es, 3, true, 2) == 1
    ensures Reads(Entries(DELETED_FIRST), [1], 3, None)
  {
    assert Offered(DELETED_FIRST, 3, true, 1);
    assert DELETED_FIRST[0] in Entries(DELETED_FIRST);
  }

  lemma DeletedBefore(cmp: Cmp)
    requires TotalOrder(cmp) && cmp([1], [2]) == Less && cmp([2], [3]) == Less
    ensures var es := DELETED_BEFORE;
      Stream(cmp, es) && Shown(es, 3, 1) && Shown(es, 3, 2) && LastOffered(es, 3, true, 2) == 1 && Stray(es, 3, 0, 1)
  {
    assert Offered(DELETED_BEFORE, 3, true, 1);
    assert StrayAt(DELETED_BEFORE, 3, 0, 1, 0);
  }

  lemma DeletedFirstRuns(cmp: Cmp)
    requires TotalOrder(cmp) && cmp([1], [2]) == Less
    ensures var seen := Sights(cmp, DELETED_FIRST, 3, true, START, [Op.Seek([2]), Op.Prev]);
      |seen| == 2 && seen[1] == Some(([1], [7]))
  {
    hide Stream, Shown, Offered, LastOffered, Stray, Sights, Observed, Reads;
    DeletedFirst(cmp);
    SeekFinds(cmp, DELETED_FIRST, 3, true, 2);
    TwoSteps(cmp, DELETED_FIRST, 3, [Op.Seek([2]), Op.Prev]);
    SightsLength(cmp, DELETED_FIRST, 3, START, [Op.Seek([2]), Op.Prev]);
  }

  lemma DeletedBeforeRuns(cmp: Cmp)
    requires TotalOrder(cmp) && cmp([1], [2]) == Less && cmp([2], [3]) == Less
    ensures var seen := Sights(cmp, DELETED_BEFORE, 3, true, START, [Op.Seek([3]), Op.Prev, Op.Advance]);
      |seen| == 3 && seen[1] == seen[2] == Some(([2], [7]))
  {
    hide Stream, Shown, Offered, LastOffered, Stray, Sights, Observed, NextShown;
    var ops := [Op.Seek([3]), Op.Prev, Op.Advance];
    DeletedBefore(cmp);
    SeekFinds(cmp, DELETED_BEFORE, 3, true, 2);
    IsNextShown(DELETED_BEFORE, 3, 1, 1);
    TwoSteps(cmp, DELETED_BEFORE, 3, ops);
    ThreeSteps(cmp, DELETED_BEFORE, 3, ops);
    SightsLength(cmp, DELETED_BEFORE, 3, START, ops);
  }

  /** Put, delete, put another key; seek that key and go back: the deleted key is shown. */
  method DeletedKeyShown(cmp: Cmp) returns (seen: seq<Option<(bytes, bytes)>>)
    requires TotalOrder(cmp) && cmp([1], [2]) == Less
    ensures Stream(cmp, DELETED_FIRST) && seen == Sights(cmp, DELETED_FIRST, 3, true, START, [Op.Seek([2]), Op.Prev])
    ensures |seen| == 2 && seen[1] == Some(([1], [7])) && Reads(Entries(DELETED_FIRST), [1], 3, None)
  {
    hide Stream, Shown, Offered, Sights, Reads, Entries;
    DeletedFirst(cmp);
    DeletedFirstRuns(cmp);
    var it := new DBIterator(cmp, DELETED_FIRST, 3, true);
    seen := Replay(it, [Op.Seek([2]), Op.Prev]);
  }

  /** Delete a key, put two others; seek the last, go back and on: the middle one is shown twice. */
  method SameKeyShownTwice(cmp: Cmp) returns (seen: seq<Option<(bytes, bytes)>>)
    requires TotalOrder(cmp) && cmp([1], [2]) == Less && cmp([2], [3]) == Less
    ensures Stream(cmp, DELETED_BEFORE)
    ensures seen == Sights(cmp, DELETED_BEFORE, 3, true, START, [Op.Seek([3]), Op.Prev, Op.Advance])
    ensures |seen| == 3 && seen[1] == seen[2] == Some(([2], [7]))
  {
    hide Stream, Shown, Offered, Sights, Stray;
    DeletedBefore(cmp);
    DeletedBeforeRuns(cmp);
    var it := new DBIterator(cmp, DELETED_BEFORE, 3, true);
    seen := Replay(it, [Op.Seek([3]), Op.Prev, Op.Advance]);
  }

  lemma {:induction false} SightsLength(cmp: Cmp, es: seq<Entry>, snap: nat, pl: Place, ops: seq<Op>)
    requires Standing(es, snap, true, pl)
    ensures |Sights(cmp, es, snap, true, pl, ops)| == |ops|
    decreases ops
  {
    if ops != [] {
      SightsLength(cmp, es, snap, Went(cmp, es, snap, true, pl, ops[0]), ops[1..]);
    }
  }
}
