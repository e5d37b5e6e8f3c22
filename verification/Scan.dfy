/**
  What a backward scan and the forward scan after it come across in a sorted stream of entries.
  The inner iterator may pass over deletion markers on its way back, as the memtable's does.
 */
module Scan {
  import opened Order
  import opened Versions

  /** Sorted entries with user keys that are not empty and sequence numbers from 1 on. */
  ghost predicate Stream(cmp: Cmp, es: seq<Entry>) {
    && TotalOrder(cmp) && Sorted(cmp, es)
    && forall i :: 0 <= i < |es| ==> es[i].ukey != [] && es[i].sn > 0
  }

  /** Positions order keys: a later entry never has a smaller user key. */
  lemma KeysAscend(cmp: Cmp, es: seq<Entry>, i: nat, j: nat)
    requires Stream(cmp, es) && i <= j < |es|
    ensures es[i].ukey == es[j].ukey || cmp(es[i].ukey, es[j].ukey) == Less
  {
    assert i < j ==> Before(cmp, es[i], es[j]);
  }

  /** Position of the last put before `p`, -1 if there is none. */
  function LastPut(es: seq<Entry>, p: int): (q: int)
    requires -1 <= p <= |es|
    ensures q == -1 || (0 <= q < p && es[q].kind == Value)
    ensures forall i :: q < i < p ==> es[i].kind == Deletion
    decreases p
  {
    if p <= 0 then -1
    else if es[p - 1].kind == Value then p - 1
    else assert es[p - 1].kind == Deletion; LastPut(es, p - 1)
  }

  /** The iterator over a memtable, which passes over deletion markers when it moves back. */
  class MemtableIterator {
    const entries: seq<Entry>
    var pos: int

    ghost predicate Valid()
      reads this
    {
      -1 <= pos < |entries|
    }

    constructor (entries: seq<Entry>)
      ensures Valid() && this.entries == entries && pos == -1
    {
      this.entries := entries;
      pos := -1;
    }

    method Advance() returns (r: bool)
      requires Valid()
      modifies this
      ensures Valid() && r == (pos >= 0)
      ensures pos == if old(pos) + 1 < |entries| then old(pos) + 1 else -1
    {
      pos := if pos + 1 < |entries| then pos + 1 else -1;
      r := pos >= 0;
    }

    method Prev() returns (r: bool)
      requires Valid()
      modifies this
      ensures Valid() && pos == LastPut(entries, old(pos)) && r == (pos >= 0)
    {
      while true
        invariant Valid() && LastPut(entries, pos) == LastPut(entries, old(pos))
        decreases pos
      {
        if pos <= 0 {
          pos := -1;
          return false;
        }
        pos := pos - 1;
        if entries[pos].kind == Value {
          return true;
        }
      }
    }
  }

  /** The inner iterator stops at `i` on its way back; `skips` says that it passes over deletions. */
  ghost predicate Seen(es: seq<Entry>, skips: bool, i: int) {
    0 <= i < |es| && (skips ==> es[i].kind == Value)
  }

  ghost predicate Visible(es: seq<Entry>, snap: nat, i: int) {
    0 <= i < |es| && es[i].sn <= snap
  }

  ghost predicate Hidden(es: seq<Entry>, snap: nat, from: int, to: int) {
    forall i :: from <= i < to ==> !Visible(es, snap, i)
  }

  /** The entry that a backward scan shows for its key: the newest visible one among those it sees, if a put. */
  ghost predicate Offered(es: seq<Entry>, snap: nat, skips: bool, i: int) {
    && Visible(es, snap, i) && es[i].kind == Value
    && forall j :: 0 <= j < i && Seen(es, skips, j) && es[j].ukey == es[i].ukey ==> es[j].sn > snap
  }

  ghost predicate NoneShown(es: seq<Entry>, snap: nat, from: int, to: int) {
    forall i :: from <= i < to ==> !Shown(es, snap, i)
  }

  ghost predicate NoneOffered(es: seq<Entry>, snap: nat, skips: bool, from: int, to: int) {
    forall i :: from <= i < to ==> !Offered(es, snap, skips, i)
  }

  lemma ShownIsOffered(es: seq<Entry>, snap: nat, skips: bool, i: int)
    ensures Shown(es, snap, i) ==> Offered(es, snap, skips, i)
    ensures !skips ==> (Shown(es, snap, i) <==> Offered(es, snap, skips, i))
  {
    if !skips && Offered(es, snap, skips, i) {
      forall j | 0 <= j < i && es[j].ukey == es[i].ukey ensures es[j].sn > snap {
        assert Seen(es, skips, j);
      }
    }
  }

  /** The first shown entry from `from` on, -1 if there is none. */
  ghost function NextShown(es: seq<Entry>, snap: nat, from: nat): (r: int)
    requires from <= |es|
    ensures r == -1 || (from <= r && Shown(es, snap, r))
    ensures NoneShown(es, snap, from, if r >= 0 then r else |es|)
    decreases |es| - from
  {
    if from == |es| then -1
    else if Shown(es, snap, from) then from
    else NextShown(es, snap, from + 1)
  }

  lemma IsNextShown(es: seq<Entry>, snap: nat, from: nat, h: int)
    requires from <= |es| && (h == -1 || (from <= h && Shown(es, snap, h)))
    requires NoneShown(es, snap, from, if h >= 0 then h else |es|)
    ensures NextShown(es, snap, from) == h
  {
  }

  /** The last entry before `end` that a backward scan shows, -1 if there is none. */
  ghost function LastOffered(es: seq<Entry>, snap: nat, skips: bool, end: int): (r: int)
    requires 0 <= end <= |es|
    ensures r == -1 || (0 <= r < end && Offered(es, snap, skips, r))
    ensures NoneOffered(es, snap, skips, r + 1, end)
    decreases end
  {
    if end == 0 then -1
    else if Offered(es, snap, skips, end - 1) then end - 1
    else LastOffered(es, snap, skips, end - 1)
  }

  lemma IsLastOffered(es: seq<Entry>, snap: nat, skips: bool, end: int, h: int)
    requires 0 <= end <= |es| && (h == -1 || (0 <= h < end && Offered(es, snap, skips, h)))
    requires NoneOffered(es, snap, skips, h + 1, end)
    ensures LastOffered(es, snap, skips, end) == h
  {
  }

  // ----- what goes wrong behind deletions

  /**
    Going back from `h`, the nearest other key with a visible put is one whose newest visible
    entry, at `d`, is a deletion.
   */
  ghost predicate BuriedBy(es: seq<Entry>, snap: nat, h: nat, d: nat, v: nat) {
    && d < v < h < |es| && es[d].ukey == es[v].ukey
    && Visible(es, snap, d) && es[d].kind == Deletion && Visible(es, snap, v) && es[v].kind == Value
    && (forall j :: 0 <= j < d && es[j].ukey == es[d].ukey ==> !Visible(es, snap, j))
    && (forall j :: v < j < h && Visible(es, snap, j) && es[j].kind == Value ==> es[j].ukey == es[v].ukey)
  }

  ghost predicate Buried(es: seq<Entry>, snap: nat, h: nat) {
    exists d, v :: BuriedBy(es, snap, h, d, v)
  }

  /** The nearest visible entry before `h` is the deletion of another key, and stands at `d` not before `from`. */
  ghost predicate StrayAt(es: seq<Entry>, snap: nat, from: int, h: nat, d: nat) {
    && from <= d < h < |es| && Visible(es, snap, d) && es[d].kind == Deletion && es[d].ukey != es[h].ukey
    && Hidden(es, snap, d + 1, h)
  }

  ghost predicate Stray(es: seq<Entry>, snap: nat, from: int, h: nat) {
    exists d :: StrayAt(es, snap, from, h, d)
  }

  /** The first visible put of a key is offered by a scan that passes over deletions. */
  lemma {:induction false} FirstPutOffered(es: seq<Entry>, snap: nat, v: nat) returns (f: nat)
    requires Visible(es, snap, v) && es[v].kind == Value
    ensures f <= v && es[f].ukey == es[v].ukey && Offered(es, snap, true, f)
    decreases v
  {
    if Offered(es, snap, true, v) {
      f := v;
    } else {
      var j :| 0 <= j < v && Seen(es, true, j) && es[j].ukey == es[v].ukey && es[j].sn <= snap;
      f := FirstPutOffered(es, snap, j);
    }
  }

  lemma {:induction false} FirstVisible(es: seq<Entry>, snap: nat, v: nat) returns (f: nat)
    requires Visible(es, snap, v)
    ensures f <= v && es[f].ukey == es[v].ukey && Visible(es, snap, f)
    ensures forall j :: 0 <= j < f && es[j].ukey == es[f].ukey ==> !Visible(es, snap, j)
    decreases v
  {
    if j :| 0 <= j < v && es[j].ukey == es[v].ukey && Visible(es, snap, j) {
      f := FirstVisible(es, snap, j);
    } else {
      f := v;
    }
  }

  /** What a scan that passes over deletions lands on is shown exactly if nothing is buried on the way. */
  lemma LandsOnShown(cmp: Cmp, es: seq<Entry>, snap: nat, h: nat)
    requires Stream(cmp, es) && Shown(es, snap, h)
    ensures var w := LastOffered(es, snap, true, h); (w == -1 || Shown(es, snap, w)) <==> !Buried(es, snap, h)
  {
    var w := LastOffered(es, snap, true, h);
    if w >= 0 && !Shown(es, snap, w) {
      var d := FirstVisible(es, snap, w);
      BuriedUnder(cmp, es, snap, h, d, w);
    }
    if Buried(es, snap, h) {
      var d, v :| BuriedBy(es, snap, h, d, v);
      LandsOnBuried(cmp, es, snap, h, d, v, w);
    }
  }

  lemma BuriedUnder(cmp: Cmp, es: seq<Entry>, snap: nat, h: nat, d: nat, w: nat)
    requires Stream(cmp, es) && h < |es| && w == LastOffered(es, snap, true, h) && !Shown(es, snap, w)
    requires d <= w && es[d].ukey == es[w].ukey && Visible(es, snap, d)
    requires forall j :: 0 <= j < d && es[j].ukey == es[d].ukey ==> !Visible(es, snap, j)
    ensures BuriedBy(es, snap, h, d, w)
  {
    assert d < w;
    assert Seen(es, true, d) <==> es[d].kind == Value;
    forall j | w < j < h && Visible(es, snap, j) && es[j].kind == Value ensures es[j].ukey == es[w].ukey {
      var f := FirstPutOffered(es, snap, j);
      assert f <= w;
      KeysAscend(cmp, es, f, w);
      KeysAscend(cmp, es, w, j);
    }
  }

  lemma LandsOnBuried(cmp: Cmp, es: seq<Entry>, snap: nat, h: nat, d: nat, v: nat, w: int)
    requires Stream(cmp, es) && BuriedBy(es, snap, h, d, v) && w == LastOffered(es, snap, true, h)
    ensures w >= 0 && es[w].ukey == es[v].ukey && !Shown(es, snap, w)
  {
    var f := FirstPutOffered(es, snap, v);
    assert f <= w;
    if w <= v {
      KeysAscend(cmp, es, f, w);
      KeysAscend(cmp, es, w, v);
    }
    assert es[w].ukey == es[d].ukey;
    assert d < w;
  }
}
