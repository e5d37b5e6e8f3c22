/**
  The database iterator: a bidirectional scan over the merged multi-version stream that hides
  deleted, overwritten and too-new entries.
 */
module DbIter {
  import opened Order
  import opened Versions
  import opened Scan

  /**
    The iterator underneath: a position in the sorted stream, -1 when not valid. `skips` says that
    it passes over deletion markers when it moves back.
   */
  datatype Cursor = Cursor(entries: seq<Entry>, pos: int, skips: bool) {
    predicate Ok() { -1 <= pos < |entries| }
    predicate Valid() { 0 <= pos < |entries| }
    function Current(): Entry requires Valid() { entries[pos] }
    function Advance(): Cursor { this.(pos := if pos + 1 < |entries| then pos + 1 else -1) }
    function Prev(): Cursor
      requires Ok()
    {
      this.(pos := if pos < 0 then -1 else if skips then LastPut(entries, pos) else pos - 1)
    }
    function SeekToFirst(): Cursor { this.(pos := if |entries| > 0 then 0 else -1) }
  }

  /** Position of the first entry at or after `target` in internal key order, -1 if there is none. */
  function FirstAtOrAfter(cmp: Cmp, es: seq<Entry>, target: Entry, from: nat): (p: int)
    requires from <= |es|
    ensures p == -1 || from <= p < |es|
    ensures p >= 0 ==> !Before(cmp, es[p], target)
    ensures forall i :: from <= i < (if p >= 0 then p else |es|) ==> Before(cmp, es[i], target)
    decreases |es| - from
  {
    if from == |es| then -1
    else if !Before(cmp, es[from], target) then from
    else FirstAtOrAfter(cmp, es, target, from + 1)
  }

  datatype Direction = Forward | Reverse

  datatype Op = Seek(key: bytes) | SeekToFirst | Advance | Prev

  // ----- specification on the stream

  /** Where the iterator stands: the entry it shows, -1 if it is not valid, and whether it got there going back. */
  datatype Place = Place(head: int, back: bool)

  ghost predicate Standing(es: seq<Entry>, snap: nat, skips: bool, pl: Place) {
    && (pl.head == -1 ==> !pl.back)
    && (pl.head != -1 ==> Offered(es, snap, skips, pl.head) && (!pl.back ==> Shown(es, snap, pl.head)))
  }

  /** Where the seek for a key starts scanning. */
  ghost function SeekFrom(cmp: Cmp, es: seq<Entry>, snap: nat, key: bytes): (p: nat)
    ensures p <= |es|
  {
    var p := FirstAtOrAfter(cmp, es, Entry(key, snap, Value, []), 0);
    if p >= 0 then p else |es|
  }

  /**
    What each call does. Going back lands on the entry offered last before; going on after that
    stays where it is when the deletion of another key, passed over on the way back, comes between.
   */
  ghost function Went(cmp: Cmp, es: seq<Entry>, snap: nat, skips: bool, pl: Place, op: Op): (r: Place)
    requires Standing(es, snap, skips, pl)
    ensures Standing(es, snap, skips, r)
  {
    match op
    case Seek(key) => OnShown(es, snap, skips, SeekFrom(cmp, es, snap, key))
    case SeekToFirst => OnShown(es, snap, skips, 0)
    case Advance =>
      if pl.head == -1 then OnShown(es, snap, skips, 0)
      else if pl.back && skips && Stray(es, snap, 0, pl.head) then OnShown(es, snap, skips, pl.head)
      else OnShown(es, snap, skips, pl.head + 1)
    case Prev =>
      if pl.head == -1 then pl
      else
        var w := LastOffered(es, snap, skips, pl.head);
        Place(w, w >= 0)
  }

  /** Standing on the first shown entry from `from` on. */
  ghost function OnShown(es: seq<Entry>, snap: nat, skips: bool, from: nat): (r: Place)
    requires from <= |es|
    ensures Standing(es, snap, skips, r)
  {
    ShownIsOffered(es, snap, skips, NextShown(es, snap, from));
    Place(NextShown(es, snap, from), false)
  }

  /** What a client sees at a place. */
  ghost function Sight(es: seq<Entry>, pl: Place): Option<(bytes, bytes)>
    requires pl.head == -1 || 0 <= pl.head < |es|
  {
    if pl.head == -1 then None else Some((es[pl.head].ukey, es[pl.head].val))
  }

  /** What a client sees after each call of a run. */
  ghost function Sights(cmp: Cmp, es: seq<Entry>, snap: nat, skips: bool, pl: Place, ops: seq<Op>)
    : seq<Option<(bytes, bytes)>>
    requires Standing(es, snap, skips, pl)
    decreases ops
  {
    if ops == [] then []
    else
      var pl' := Went(cmp, es, snap, skips, pl, ops[0]);
      [Sight(es, pl')] + Sights(cmp, es, snap, skips, pl', ops[1..])
  }

  class DBIterator {
    const cmp: Cmp
    const snap: nat
    const entries: seq<Entry>
    const skips: bool
    var iter: Cursor
    var dir: Direction
    var valid: bool
    var savedkey: bytes
    var savedval: bytes
    /** Index in the stream of the entry the iterator shows; -1 if it is not valid. */
    ghost var head: int

    ghost predicate Valid()
      reads this
    {
      && Stream(cmp, entries) && Inner() && Standing(entries, snap, skips, Where())
      && -1 <= head && (valid <==> head >= 0)
      && (valid && dir == Forward ==> iter.pos == head)
      && (valid && dir == Reverse ==>
            && savedkey == entries[head].ukey && savedval == entries[head].val
            && Behind(iter.pos, head))
    }

    ghost predicate Inner()
      reads this
    {
      iter.entries == entries && iter.skips == skips && iter.Ok()
    }

    ghost function Where(): Place
      reads this
    {
      Place(head, dir == Reverse)
    }

    /** The inner iterator has come from `h` to the next visible entry of another key that it sees, or to the start. */
    ghost predicate Behind(p: int, h: int) {
      && -1 <= p < h < |entries|
      && (forall i :: p < i < h && Seen(entries, skips, i) ==> !Visible(entries, snap, i))
      && (p >= 0 ==> Seen(entries, skips, p) && Visible(entries, snap, p) && entries[p].ukey != entries[h].ukey)
    }

    constructor (cmp: Cmp, entries: seq<Entry>, snap: nat, skips: bool)
      requires Stream(cmp, entries)
      ensures Valid() && Where() == Place(-1, false)
      ensures this.cmp == cmp && this.entries == entries && this.snap == snap && this.skips == skips
    {
      this.cmp, this.entries, this.snap, this.skips := cmp, entries, snap, skips;
      iter := Cursor(entries, -1, skips);
      dir, valid, savedkey, savedval := Forward, false, [], [];
      head := -1;
    }

    /** The visible entries between `d` and `q` all belong to the key at `d`. */
    ghost predicate SameKeySince(d: nat, q: nat)
      requires d < |entries| && q <= |entries|
    {
      forall j :: d < j < q && Visible(entries, snap, j) ==> entries[j].ukey == entries[d].ukey
    }

    /** No entry before `p` that the snapshot can see shares a user key with the entry at `p`. */
    ghost predicate FreshKey(p: nat)
      requires p < |entries|
    {
      forall j :: 0 <= j < p && Visible(entries, snap, j) ==> entries[j].ukey != entries[p].ukey
    }

    /** The visible entries of a range are deletions. */
    ghost predicate DeletionsOnly(from: int, end: int) {
      forall i :: from <= i < end && Visible(entries, snap, i) ==> entries[i].kind == Deletion
    }

    /**
      The forward scan at `q` on its way to `h`, where it turned from going back: it has passed
      nothing visible and saved the key of `h`, or saved that of the last deletion passed, at `d`.
     */
    ghost predicate Approaching(from: nat, h: nat, q: nat, d: nat) {
      && from <= q <= h < |entries| && DeletionsOnly(q, h)
      && Visible(entries, snap, h) && entries[h].kind == Value
      && if d == h then Hidden(entries, snap, from, q)
         else
           && from <= d < q && Visible(entries, snap, d) && entries[d].kind == Deletion
           && Hidden(entries, snap, d + 1, q)
    }

    /**
      The forward scan at `q`, looking for the first shown entry from `lo` on: until it skips it has
      passed only hidden entries; once it skips, the key of the visible entry `d` is the largest
      visible key it has passed.
     */
    ghost predicate Scanned(from: nat, lo: nat, q: nat, skip: bool, d: nat) {
      && from <= q <= |entries| && lo <= q && NoneShown(entries, snap, lo, q)
      && (!skip ==> lo == from && Hidden(entries, snap, from, q) && (from < |entries| ==> FreshKey(from)))
      && (skip ==> d < q && Visible(entries, snap, d) && SameKeySince(d, q))
    }

    lemma Approaches(from: nat, h: nat, q: nat, d: nat)
      requires Approaching(from, h, q, d) && q < h
      ensures Approaching(from, h, q + 1, if Visible(entries, snap, q) then q else d)
    {
    }

    /** Past `h`, unless the last deletion passed is that of another key. */
    lemma PassesHead(from: nat, h: nat, d: nat)
      requires Approaching(from, h, h, d) && entries[d].ukey == entries[h].ukey
      ensures !Stray(entries, snap, from, h) && Scanned(from, h + 1, h + 1, true, d)
    {
    }

    lemma StopsAtHead(from: nat, h: nat, d: nat)
      requires Stream(cmp, entries) && Approaching(from, h, h, d) && entries[d].ukey != entries[h].ukey
      ensures Stray(entries, snap, from, h) && Shown(entries, snap, h)
    {
      assert StrayAt(entries, snap, from, h, d);
      StrayIsShown(cmp, entries, snap, h, d);
    }

    lemma PassesHidden(from: nat, lo: nat, q: nat, skip: bool, d: nat)
      requires Scanned(from, lo, q, skip, d) && q < |entries| && !Visible(entries, snap, q)
      ensures Scanned(from, lo, q + 1, skip, d)
    {
    }

    lemma PassesDeletion(from: nat, lo: nat, q: nat, skip: bool, d: nat)
      requires Scanned(from, lo, q, skip, d) && Visible(entries, snap, q) && entries[q].kind == Deletion
      ensures Scanned(from, lo, q + 1, true, q)
    {
    }

    lemma PassesOlder(from: nat, lo: nat, q: nat, d: nat)
      requires Stream(cmp, entries) && Scanned(from, lo, q, true, d) && Visible(entries, snap, q)
      requires cmp(entries[q].ukey, entries[d].ukey) != Greater
      ensures Scanned(from, lo, q + 1, true, d)
    {
      KeysAscend(cmp, entries, d, q);
    }

    /** The forward scan stops at `q`: it is the newest visible entry of its key. */
    lemma StopsAtNewest(from: nat, lo: nat, q: nat, skip: bool, d: nat)
      requires Stream(cmp, entries) && Scanned(from, lo, q, skip, d)
      requires Visible(entries, snap, q) && entries[q].kind == Value
      requires skip ==> cmp(entries[q].ukey, entries[d].ukey) == Greater
      ensures Shown(entries, snap, q)
    {
      forall j | 0 <= j < q && entries[j].ukey == entries[q].ukey ensures entries[j].sn > snap {
        if skip {
          if j <= d { KeysAscend(cmp, entries, j, d); }
        } else if j < from {
          KeysAscend(cmp, entries, j, from);
          KeysAscend(cmp, entries, from, q);
        }
        assert Visible(entries, snap, j) <==> entries[j].sn <= snap;
      }
    }

    /** Where the scan ends that starts at `from`, and when skipping with the key of `h` saved. */
    ghost function Target(from: nat, skipping: bool, h: nat): (lo: nat)
      requires from < |entries| && h < |entries|
      ensures lo <= |entries|
    {
      if !skipping then from else if Stray(entries, snap, from, h) then h else h + 1
    }

    /** State of the forward scan at `q`, on its way to where it turned round or past that. */
    ghost predicate Scanning(from: nat, skipping: bool, h: nat, q: nat, skip: bool, d: nat) {
      && from < |entries| && h < |entries| && q <= |entries| && (skip ==> d < |entries|)
      && if skipping && q <= h then skip && Approaching(from, h, q, d)
         else Scanned(from, Target(from, skipping, h), q, skip, d)
    }

    lemma ScanStarts(from: nat, skipping: bool, h: nat)
      requires from < |entries| && h < |entries| && Stream(cmp, entries)
      requires if skipping then Approaching(from, h, from, h) else FreshKey(from)
      ensures Scanning(from, skipping, h, from, skipping, h)
    {
      if skipping { ApproachFacts(from, h, from, h); } else { StartsFresh(from, h); }
    }

    /** One turn of the forward scan. */
    lemma ScanStep(from: nat, skipping: bool, h: nat, q: nat, skip: bool, d: nat)
      requires Stream(cmp, entries) && q < |entries| && Scanning(from, skipping, h, q, skip, d)
      ensures var e := entries[q];
        if e.sn > snap then Scanning(from, skipping, h, q + 1, skip, d)
        else if e.kind == Deletion then Scanning(from, skipping, h, q + 1, true, q)
        else if skip && cmp(e.ukey, entries[d].ukey) != Greater then Scanning(from, skipping, h, q + 1, skip, d)
        else Shown(entries, snap, q) && NextShown(entries, snap, Target(from, skipping, h)) == q
    {
      hide Stream, Approaching, Scanned, Shown, Offered, Stray, NextShown, FreshKey;
      var e, lo := entries[q], Target(from, skipping, h);
      if skipping && q <= h {
        ApproachFacts(from, h, q, d);
        if q < h {
          Approaches(from, h, q, d);
        } else if entries[d].ukey == entries[h].ukey {
          PassesHead(from, h, d);
        } else {
          StopsAtHead(from, h, d);
          ScanEnds(from, skipping, h, q, skip, d, lo);
        }
      } else if e.sn > snap {
        PassesHidden(from, lo, q, skip, d);
      } else if e.kind == Deletion {
        PassesDeletion(from, lo, q, skip, d);
      } else if skip && cmp(e.ukey, entries[d].ukey) != Greater {
        PassesOlder(from, lo, q, d);
      } else {
        StopsAtNewest(from, lo, q, skip, d);
        ScanEnds(from, skipping, h, q, skip, d, lo);
      }
    }

    /** Moves to the first shown entry from its target on. */
    method FindNextUserEntry(skipping: bool, ghost h: nat) returns (found: bool)
      requires Stream(cmp, entries) && Inner() && iter.Valid() && dir == Forward && h < |entries|
      requires if skipping then Approaching(iter.pos, h, iter.pos, h) && savedkey == entries[h].ukey
               else FreshKey(iter.pos)
      modifies this
      ensures Valid() && found == valid
      ensures Where() == OnShown(entries, snap, skips, Target(old(iter.pos), skipping, h))
    {
      hide Stream, Approaching, Scanning, Shown, Offered, Stray, NextShown, FreshKey;
      var skip := skipping;
      ghost var from: nat, d: nat, q: nat := iter.pos, h, iter.pos;
      ScanStarts(from, skipping, h);
      while iter.Valid()
        invariant Inner() && dir == Forward && q <= |entries|
        invariant iter.pos == if q < |entries| then q else -1
        invariant Scanning(from, skipping, h, q, skip, d)
        invariant skip ==> d < |entries| && savedkey == entries[d].ukey
        decreases |entries| - q
      {
        var e := iter.Current();
        savedval := e.val;
        ScanStep(from, skipping, h, q, skip, d);
        if e.sn <= snap {
          if e.kind == Deletion {
            savedkey, skip, d := e.ukey, true, q;
          } else if skip && cmp(e.ukey, savedkey) != Greater {
          } else {
            ShownIsOffered(entries, snap, skips, q);
            valid := true;
            savedkey := [];
            head := q;
            return true;
          }
        }
        iter := iter.Advance();
        q := q + 1;
      }
      ScanRunsOut(from, skipping, h, skip, d);
      savedkey := [];
      valid := false;
      head := -1;
      found := false;
    }

    lemma StartsFresh(from: nat, d: nat)
      requires from < |entries| && FreshKey(from)
      ensures Scanned(from, from, from, false, d)
    {
    }

    lemma ApproachFacts(from: nat, h: nat, q: nat, d: nat)
      requires Stream(cmp, entries) && Approaching(from, h, q, d)
      ensures q <= h < |entries| && d < |entries| && Visible(entries, snap, h) && entries[h].kind == Value
      ensures q < h && Visible(entries, snap, q) ==> entries[q].kind == Deletion
      ensures entries[d].ukey == entries[h].ukey ==> cmp(entries[h].ukey, entries[d].ukey) == Equal
      ensures entries[d].ukey != entries[h].ukey ==> cmp(entries[h].ukey, entries[d].ukey) == Greater
    {
      if d < h { KeysAscend(cmp, entries, d, h); }
    }

    lemma ScanEnds(from: nat, skipping: bool, h: nat, q: nat, skip: bool, d: nat, lo: nat)
      requires from < |entries| && h < |entries| && lo == Target(from, skipping, h) && Shown(entries, snap, q)
      requires if skipping && q <= h then q == h && Stray(entries, snap, from, h) else Scanned(from, lo, q, skip, d)
      ensures NextShown(entries, snap, lo) == q
    {
      IsNextShown(entries, snap, lo, q);
    }

    lemma ScanRunsOut(from: nat, skipping: bool, h: nat, skip: bool, d: nat)
      requires Scanning(from, skipping, h, |entries|, skip, d)
      ensures NextShown(entries, snap, Target(from, skipping, h)) == -1
    {
      IsNextShown(entries, snap, Target(from, skipping, h), -1);
    }

    /**
      State of the backward scan below `from` at `q`: either nothing passed so far is offered, or the
      visible put at `v` is the smallest visible entry passed and nothing after it is offered.
     */
    ghost predicate Gathered(from: int, q: int, found: bool, v: nat) {
      && -1 <= q <= from < |entries| && (q >= 0 ==> Seen(entries, skips, q))
      && (!found ==> NoneOffered(entries, snap, skips, q + 1, from + 1))
      && (found ==>
            && q < v <= from && Seen(entries, skips, v) && entries[v].kind == Value && Visible(entries, snap, v)
            && (forall i :: q < i < v && Seen(entries, skips, i) ==> !Visible(entries, snap, i))
            && NoneOffered(entries, snap, skips, v + 1, from + 1))
    }

    /** A step back passes nothing that the scan would have seen. */
    lemma StepsBack(q: nat)
      requires q < |entries|
      ensures var q' := Cursor(entries, q, skips).Prev().pos;
        && -1 <= q' < q && (q' >= 0 ==> Seen(entries, skips, q'))
        && forall i :: q' < i < q ==> !Seen(entries, skips, i)
    {
    }

    lemma GathersHidden(from: int, q: nat, q': int, found: bool, v: nat)
      requires Gathered(from, q, found, v) && !Visible(entries, snap, q) && -1 <= q' < q
      requires (q' >= 0 ==> Seen(entries, skips, q')) && forall i :: q' < i < q ==> !Seen(entries, skips, i)
      ensures Gathered(from, q', found, v)
    {
      UnseenNotOffered(q' + 1, q);
    }

    lemma UnseenNotOffered(a: int, b: int)
      requires 0 <= a && b <= |entries| && forall i :: a <= i < b ==> !Seen(entries, skips, i)
      ensures NoneOffered(entries, snap, skips, a, b)
    {
      forall i | a <= i < b ensures !Offered(entries, snap, skips, i) {
        assert !Seen(entries, skips, i);
      }
    }

    lemma GathersVisible(from: int, q: nat, q': int, found: bool, v: nat)
      requires Stream(cmp, entries) && Gathered(from, q, found, v) && Visible(entries, snap, q) && -1 <= q' < q
      requires (q' >= 0 ==> Seen(entries, skips, q')) && forall i :: q' < i < q ==> !Seen(entries, skips, i)
      requires found ==> cmp(entries[q].ukey, entries[v].ukey) != Less
      ensures Gathered(from, q', entries[q].kind == Value, q)
    {
      UnseenNotOffered(q' + 1, q);
      if found {
        KeysAscend(cmp, entries, q, v);
        assert !Offered(entries, snap, skips, v);
      }
    }

    /** The backward scan, having passed the visible entries down to `q`, left the newest one of a key at `v`. */
    lemma NewestPassed(from: int, q: int, v: nat)
      requires Stream(cmp, entries) && Gathered(from, q, true, v)
      requires q >= 0 ==> Visible(entries, snap, q) && cmp(entries[q].ukey, entries[v].ukey) == Less
      ensures LastOffered(entries, snap, skips, from + 1) == v && Behind(q, v)
    {
      forall j | 0 <= j < v && Seen(entries, skips, j) && entries[j].ukey == entries[v].ukey
        ensures entries[j].sn > snap
      {
        if j <= q { KeysAscend(cmp, entries, j, q); }
        assert Visible(entries, snap, j) <==> entries[j].sn <= snap;
      }
      IsLastOffered(entries, snap, skips, from + 1, v);
    }

    lemma NothingGathered(from: int, v: nat)
      requires Gathered(from, -1, false, v)
      ensures LastOffered(entries, snap, skips, from + 1) == -1
    {
      IsLastOffered(entries, snap, skips, from + 1, -1);
    }

    lemma GathersNothingYet(from: int)
      requires -1 <= from < |entries| && (from >= 0 ==> Seen(entries, skips, from))
      ensures Gathered(from, from, false, 0)
    {
    }

    /** Moves to the last offered entry at or before the inner position. */
    method FindPrevUserEntry() returns (r: bool)
      requires Stream(cmp, entries) && Inner() && dir == Reverse
      requires iter.pos >= 0 ==> Seen(entries, skips, iter.pos)
      modifies this
      ensures r && Valid()
      ensures var w := LastOffered(entries, snap, skips, old(iter.pos) + 1); Where() == Place(w, w >= 0)
    {
      hide Stream, Gathered, Offered, LastOffered;
      var valueType := Deletion;
      ghost var from := iter.pos;
      ghost var v: nat := 0;
      GathersNothingYet(from);
      while iter.Valid()
        invariant Inner() && dir == Reverse
        invariant Gathered(from, iter.pos, valueType == Value, v)
        invariant valueType == Value ==> v < |entries| && savedkey == entries[v].ukey && savedval == entries[v].val
        decreases iter.pos
      {
        var e := iter.Current();
        StepsBack(iter.pos);
        if e.sn > 0 && e.sn <= snap {
          if valueType != Deletion && cmp(e.ukey, savedkey) == Less {
            break;
          }
          GathersVisible(from, iter.pos, iter.Prev().pos, valueType == Value, v);
          valueType, v := e.kind, iter.pos;
          if valueType == Deletion {
            savedkey, savedval := [], [];
          } else {
            savedkey, savedval := e.ukey, e.val;
          }
        } else {
          PositiveNumbers(iter.pos);
          GathersHidden(from, iter.pos, iter.Prev().pos, valueType == Value, v);
        }
        iter := iter.Prev();
      }
      if valueType == Deletion {
        NothingGathered(from, v);
        valid, savedkey, savedval, dir := false, [], [], Forward;
        head := -1;
      } else {
        NewestPassed(from, iter.pos, v);
        valid := true;
        head := v;
      }
      r := true;
    }

    lemma PositiveNumbers(i: nat)
      requires Stream(cmp, entries) && i < |entries|
      ensures entries[i].sn > 0
    {
    }

    method SeekToFirst()
      requires Valid()
      modifies this
      ensures Valid() && Where() == Went(cmp, entries, snap, skips, old(Where()), Op.SeekToFirst)
    {
      dir := Forward;
      savedval := [];
      iter := iter.SeekToFirst();
      if iter.Valid() {
        var _ := FindNextUserEntry(false, 0);
      } else {
        valid := false;
        head := -1;
      }
    }

    method Seek(key: bytes)
      requires Valid()
      modifies this
      ensures Valid() && Where() == Went(cmp, entries, snap, skips, old(Where()), Op.Seek(key))
    {
      dir := Forward;
      savedval := [];
      var target := Entry(key, snap, Value, []);
      var p := FirstAtOrAfter(cmp, entries, target, 0);
      iter := iter.(pos := p);
      if iter.Valid() {
        assert FreshKey(iter.pos);
        var _ := FindNextUserEntry(false, 0);
      } else {
        valid := false;
        head := -1;
      }
    }

    method Current() returns (r: Option<(bytes, bytes)>)
      requires Valid()
      ensures r == Sight(entries, Where())
    {
      if !valid {
        return None;
      }
      if dir == Forward {
        var e := iter.Current();
        r := Some((e.ukey, e.val));
      } else {
        r := Some((savedkey, savedval));
      }
    }

    /** Turning round behind `p`: only deletions come between, and none that was not passed over on the way back. */
    lemma TurnsRound(p: int, h: nat)
      requires Behind(p, h) && Offered(entries, snap, skips, h)
      ensures Approaching(p + 1, h, p + 1, h)
      ensures Stray(entries, snap, p + 1, h) <==> skips && Stray(entries, snap, 0, h)
    {
      forall i | p < i < h && Visible(entries, snap, i) ensures entries[i].kind == Deletion {
        assert !Seen(entries, skips, i);
      }
      if Stray(entries, snap, p + 1, h) {
        var d: nat :| StrayAt(entries, snap, p + 1, h, d);
        assert !Seen(entries, skips, d);
        assert StrayAt(entries, snap, 0, h, d);
      }
      if skips && Stray(entries, snap, 0, h) {
        var d: nat :| StrayAt(entries, snap, 0, h, d);
        assert StrayAt(entries, snap, p + 1, h, d);
      }
    }

    lemma GoesOn(h: nat)
      requires h < |entries| && Shown(entries, snap, h)
      ensures Approaching(h, h, h, h) && !Stray(entries, snap, h, h)
    {
    }

    method Advance() returns (r: bool)
      requires Valid()
      modifies this
      ensures Valid() && Where() == Went(cmp, entries, snap, skips, old(Where()), Op.Advance) && r == valid
    {
      hide Stream, Approaching, Shown, Offered, Stray;
      if !valid {
        SeekToFirst();
        return valid;
      }
      ghost var h: nat := head;
      if dir == Reverse {
        TurnsRound(iter.pos, h);
        dir := Forward;
        if !iter.Valid() {
          iter := iter.SeekToFirst();
        } else {
          iter := iter.Advance();
        }
        if !iter.Valid() {
          assert false;
        }
      } else {
        GoesOn(h);
        savedkey, savedval := iter.Current().ukey, iter.Current().val;
      }
      r := FindNextUserEntry(true, h);
    }

    /** The inner iterator shows an entry of a smaller user key in front of entry `h`. */
    ghost predicate LowerKeySeen(h: int) {
      exists j :: 0 <= j < h < |entries| && Seen(entries, skips, j) && cmp(entries[j].ukey, entries[h].ukey) == Less
    }

    /** The direction switch of prev(): walks back to the last entry with a smaller user key, if there is one. */
    method LeaveKey() returns (found: bool)
      requires Valid() && valid && dir == Forward
      modifies this
      ensures valid == old(valid) && dir == old(dir) && head == old(head)
      ensures Inner() && iter.pos < head && found == iter.Valid()
      ensures iter.pos >= 0 ==> Seen(entries, skips, iter.pos)
      ensures NoneOffered(entries, snap, skips, iter.pos + 1, head)
      ensures found <==> LowerKeySeen(head)
    {
      savedkey, savedval := iter.Current().ukey, iter.Current().val;
      while true
        invariant valid == old(valid) && dir == old(dir) && head == old(head)
        invariant Inner() && iter.Valid() && iter.pos <= head
        invariant savedkey == entries[head].ukey
        invariant forall j :: iter.pos <= j <= head && Seen(entries, skips, j) ==> entries[j].ukey == savedkey
        decreases iter.pos
      {
        StepsBack(iter.pos);
        iter := iter.Prev();
        if !iter.Valid() {
          SameKeyNotOffered(-1, head);
          return false;
        }
        savedval := iter.Current().val;
        if cmp(iter.Current().ukey, savedkey) == Less {
          SameKeyNotOffered(iter.pos, head);
          return true;
        }
        KeysAscend(cmp, entries, iter.pos, head);
      }
    }

    lemma SameKeyNotOffered(p: int, h: nat)
      requires Shown(entries, snap, h) && -1 <= p < h
      requires forall j :: p < j <= h && Seen(entries, skips, j) ==> entries[j].ukey == entries[h].ukey
      ensures NoneOffered(entries, snap, skips, p + 1, h)
    {
    }

    /** Nothing is offered between the place and where the inner iterator starts to go back. */
    lemma SamePlace(p: int, h: int)
      requires -1 <= p < h <= |entries| && NoneOffered(entries, snap, skips, p + 1, h)
      ensures LastOffered(entries, snap, skips, p + 1) == LastOffered(entries, snap, skips, h)
    {
      IsLastOffered(entries, snap, skips, h, LastOffered(entries, snap, skips, p + 1));
    }

    lemma BehindNoneOffered(p: int, h: int)
      requires Behind(p, h)
      ensures NoneOffered(entries, snap, skips, p + 1, h)
    {
    }

    method Prev() returns (r: bool)
      requires Valid()
      modifies this
      ensures Valid() && Where() == Went(cmp, entries, snap, skips, old(Where()), Op.Prev)
      ensures valid ==> r
      ensures r <==> old(valid) && (old(dir) == Reverse || LowerKeySeen(old(head)))
    {
      hide Stream, LowerKeySeen, Shown, Offered, LastOffered;
      if !valid {
        return false;
      }
      ghost var h: nat := head;
      if dir == Forward {
        var found := LeaveKey();
        SamePlace(iter.pos, h);
        if !found {
          valid, savedkey, savedval := false, [], [];
          head := -1;
          return false;
        }
        dir := Reverse;
      } else {
        BehindNoneOffered(iter.pos, h);
        SamePlace(iter.pos, h);
      }
      r := FindPrevUserEntry();
    }
  }

  lemma StrayIsShown(cmp: Cmp, es: seq<Entry>, snap: nat, h: nat, d: nat)
    requires Stream(cmp, es) && StrayAt(es, snap, 0, h, d) && Visible(es, snap, h) && es[h].kind == Value
    ensures Shown(es, snap, h)
  {
    forall j | 0 <= j < h && es[j].ukey == es[h].ukey ensures es[j].sn > snap {
      if j <= d {
        KeysAscend(cmp, es, j, d);
        KeysAscend(cmp, es, d, h);
      }
      assert Visible(es, snap, j) <==> es[j].sn <= snap;
    }
  }

  /** One call followed by current(). */
  method Step(it: DBIterator, op: Op) returns (r: Option<(bytes, bytes)>)
    requires it.Valid()
    modifies it
    ensures it.Valid() && it.Where() == Went(it.cmp, it.entries, it.snap, it.skips, old(it.Where()), op)
    ensures r == Sight(it.entries, it.Where())
  {
    match op {
      case Seek(key) => it.Seek(key);
      case SeekToFirst => it.SeekToFirst();
      case Advance => var _ := it.Advance();
      case Prev => var _ := it.Prev();
    }
    r := it.Current();
  }

  /** Every run of calls shows what `Sights` says. */
  method Replay(it: DBIterator, ops: seq<Op>) returns (seen: seq<Option<(bytes, bytes)>>)
    requires it.Valid()
    modifies it
    ensures it.Valid()
    ensures seen == Sights(it.cmp, it.entries, it.snap, it.skips, old(it.Where()), ops)
    decreases ops
  {
    hide Stream, Standing, Went;
    seen := [];
    if ops != [] {
      StandsAt(it);
      var r := Step(it, ops[0]);
      var rest := Replay(it, ops[1..]);
      seen := [r] + rest;
    }
  }

  lemma StandsAt(it: DBIterator)
    requires it.Valid()
    ensures Standing(it.entries, it.snap, it.skips, it.Where())
  {
  }
}
