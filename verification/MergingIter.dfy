/** The iterator that merges the memtables' and tables' iterators under the database iterator. */
module Merging {
  import opened Order
  import opened Versions
  import opened Scan
  import opened DbIter

  // ----- entries of all children, in one order

  ghost predicate HasEntry(its: seq<Cursor>, e: Entry) {
    exists i :: 0 <= i < |its| && e in its[i].entries
  }

  /** Every child is sorted, and no version is in two of them. */
  ghost predicate Family(cmp: Cmp, its: seq<Cursor>) {
    && TotalOrder(cmp)
    && (forall i :: 0 <= i < |its| ==> Sorted(cmp, its[i].entries) && its[i].Ok())
    && (forall i, j, e, f :: 0 <= i < j < |its| && e in its[i].entries && f in its[j].entries ==>
          Before(cmp, e, f) || Before(cmp, f, e))
  }

  /** `e` is the first entry at or after `target`. */
  ghost predicate IsFirst(cmp: Cmp, its: seq<Cursor>, target: Entry, e: Entry) {
    && HasEntry(its, e) && !Before(cmp, e, target)
    && forall f :: HasEntry(its, f) && !Before(cmp, f, target) ==> f == e || Before(cmp, e, f)
  }

  /** `e` is the first entry after `e0`. */
  ghost predicate IsNext(cmp: Cmp, its: seq<Cursor>, e0: Entry, e: Entry) {
    && HasEntry(its, e) && Before(cmp, e0, e)
    && forall f :: HasEntry(its, f) && Before(cmp, e0, f) ==> f == e || Before(cmp, e, f)
  }

  /** `e` is the first entry of all. */
  ghost predicate IsLeast(cmp: Cmp, its: seq<Cursor>, e: Entry) {
    HasEntry(its, e) && forall f :: HasEntry(its, f) ==> f == e || Before(cmp, e, f)
  }

  /** An entry that its child stops at on the way back. */
  ghost predicate SeenIn(it: Cursor, e: Entry) {
    e in it.entries && (it.skips ==> e.kind == Value)
  }

  /** `e`, in child `j`, is the last entry before `e0` that any child stops at on the way back. */
  ghost predicate IsPrevIn(cmp: Cmp, its: seq<Cursor>, e0: Entry, e: Entry, j: int) {
    && 0 <= j < |its| && SeenIn(its[j], e) && Before(cmp, e, e0)
    && forall i, f :: 0 <= i < |its| && SeenIn(its[i], f) && Before(cmp, f, e0) ==> f == e || Before(cmp, f, e)
  }

  ghost predicate SameChildren(a: seq<Cursor>, b: seq<Cursor>) {
    |a| == |b| && forall i :: 0 <= i < |a| ==> a[i].entries == b[i].entries && a[i].skips == b[i].skips
  }

  // ----- positions of one child

  function SeekPos(cmp: Cmp, it: Cursor, e: Entry): (p: int)
    ensures -1 <= p < |it.entries|
  {
    FirstAtOrAfter(cmp, it.entries, e, 0)
  }

  /** Where a child stops last before `e` on the way back, -1 if nowhere. */
  function LastBefore(cmp: Cmp, it: Cursor, e: Entry): (p: int)
    ensures -1 <= p < |it.entries|
  {
    var p := SeekPos(cmp, it, e);
    var n := if p >= 0 then p else |it.entries|;
    if it.skips then LastPut(it.entries, n) else n - 1
  }

  lemma PastSeek(cmp: Cmp, it: Cursor, e: Entry)
    requires TotalOrder(cmp) && Sorted(cmp, it.entries)
    ensures var p := SeekPos(cmp, it, e);
      p >= 0 ==> forall q :: p <= q < |it.entries| ==> !Before(cmp, it.entries[q], e)
  {
    var p := SeekPos(cmp, it, e);
    if p >= 0 {
      forall q | p <= q < |it.entries| ensures !Before(cmp, it.entries[q], e) {
        assert p < q ==> Before(cmp, it.entries[p], it.entries[q]);
      }
    }
  }

  lemma LastBeforeIs(cmp: Cmp, it: Cursor, e: Entry)
    requires TotalOrder(cmp) && Sorted(cmp, it.entries)
    ensures var p := LastBefore(cmp, it, e);
      && (p >= 0 ==> SeenIn(it, it.entries[p]) && Before(cmp, it.entries[p], e))
      && forall f :: SeenIn(it, f) && Before(cmp, f, e) ==>
           p >= 0 && (f == it.entries[p] || Before(cmp, f, it.entries[p]))
  {
    var p := LastBefore(cmp, it, e);
    PastSeek(cmp, it, e);
    forall f | SeenIn(it, f) && Before(cmp, f, e)
      ensures p >= 0 && (f == it.entries[p] || Before(cmp, f, it.entries[p]))
    {
      var i :| 0 <= i < |it.entries| && it.entries[i] == f;
      if i < p { assert Before(cmp, it.entries[i], it.entries[p]); }
    }
  }

  /** Moves a child past its last entry; that leaves it not valid. */
  method RunOut(it: Cursor) returns (r: Cursor)
    requires it.pos == -1
    ensures r == it
  {
    r := it;
    ghost var left := |it.entries|;
    var more := true;
    while more
      invariant r.entries == it.entries && r.skips == it.skips && r.Ok()
      invariant more ==> r.pos + left + 1 == |it.entries|
      invariant !more ==> r.pos == -1
      decreases more, left
    {
      r := r.Advance();
      more := r.Valid();
      left := if more then left - 1 else 0;
    }
  }

  /** Where the children stand after the switch to going back from `e` in child `c`. */
  ghost function Turned(cmp: Cmp, its: seq<Cursor>, c: nat, e: Entry): (r: seq<Cursor>)
    requires c < |its|
    ensures SameChildren(its, r)
  {
    seq(|its|, i requires 0 <= i < |its| =>
      if i == c then its[i]
      else its[i].(pos := if SeekPos(cmp, its[i], e) >= 0 then LastBefore(cmp, its[i], e) else -1))
  }

  /**
    After the switch, a child other than the current one stands at its last entry before the current
    key exactly if it has an entry at or after that key, or none before it.
   */
  lemma TurnedStands(cmp: Cmp, its: seq<Cursor>, c: nat, e: Entry, i: nat)
    requires c < |its| && i < |its| && i != c && TotalOrder(cmp) && Sorted(cmp, its[i].entries)
    ensures Turned(cmp, its, c, e)[i].pos == LastBefore(cmp, its[i], e)
       <==> (exists f :: f in its[i].entries && !Before(cmp, f, e)) || LastBefore(cmp, its[i], e) == -1
    ensures Turned(cmp, its, c, e)[i].Valid() ==> Before(cmp, Turned(cmp, its, c, e)[i].Current(), e)
  {
    LastBeforeIs(cmp, its[i], e);
    var p := SeekPos(cmp, its[i], e);
    if p >= 0 {
      assert its[i].entries[p] in its[i].entries;
    }
  }

  // ----- where going back lands

  /** No other child stands ahead of `e`. */
  ghost predicate NoneAhead(cmp: Cmp, its: seq<Cursor>, c: nat, e: Entry) {
    forall i :: 0 <= i < |its| && i != c && its[i].Valid() ==> Before(cmp, its[i].Current(), e)
  }

  /** The child with the last entry before `e` is the current one or stands at that entry. */
  ghost predicate HolderStands(cmp: Cmp, its: seq<Cursor>, c: nat, e: Entry) {
    forall j, f :: IsPrevIn(cmp, its, e, f, j) && j != c ==> its[j].Valid() && its[j].Current() == f
  }

  /** `x` comes before the last entry before `e`. */
  ghost predicate Passed(cmp: Cmp, its: seq<Cursor>, e: Entry, x: Entry) {
    exists f, j :: IsPrevIn(cmp, its, e, f, j) && Before(cmp, x, f)
  }

  /** Another child before `e` stands at an entry it stops at, or does not come into question. */
  ghost predicate Settled(cmp: Cmp, its: seq<Cursor>, c: nat, e: Entry) {
    forall i :: 0 <= i < |its| && i != c && its[i].Valid() && Before(cmp, its[i].Current(), e) ==>
      SeenIn(its[i], its[i].Current()) || Passed(cmp, its, e, its[i].Current())
  }

  /** `n` stands at the largest entry of all, or none stands at any. */
  ghost predicate Largest(cmp: Cmp, its: seq<Cursor>, n: nat) {
    && n < |its|
    && forall i :: 0 <= i < |its| && its[i].Valid() && i != n ==>
         its[n].Valid() && Before(cmp, its[i].Current(), its[n].Current())
  }

  ghost predicate Smallest(cmp: Cmp, its: seq<Cursor>, n: nat) {
    && n < |its|
    && forall i :: 0 <= i < |its| && its[i].Valid() && i != n ==>
         its[n].Valid() && Before(cmp, its[n].Current(), its[i].Current())
  }

  /** The child at `n` stands at the last entry before `e`, or is not valid if there is none. */
  ghost predicate LandsBefore(cmp: Cmp, its: seq<Cursor>, e: Entry, n: nat)
    requires n < |its|
  {
    if exists f, j :: IsPrevIn(cmp, its, e, f, j)
    then its[n].Valid() && IsPrevIn(cmp, its, e, its[n].Current(), n)
    else !its[n].Valid()
  }

  /** Some child has the last entry before `e`, if any has one before it. */
  lemma {:induction false} HasPrev(cmp: Cmp, its: seq<Cursor>, e: Entry, f: Entry, k: nat, n: nat)
    returns (g: Entry, j: nat)
    requires Family(cmp, its) && k < n <= |its| && SeenIn(its[k], f) && Before(cmp, f, e)
    ensures j < n && SeenIn(its[j], g) && Before(cmp, g, e)
    ensures forall i, h :: 0 <= i < n && SeenIn(its[i], h) && Before(cmp, h, e) ==> h == g || Before(cmp, h, g)
    decreases n
  {
    hide LastBefore;
    LastBeforeIs(cmp, its[n - 1], e);
    var p := LastBefore(cmp, its[n - 1], e);
    if m, h :| 0 <= m < n - 1 && SeenIn(its[m], h) && Before(cmp, h, e) {
      g, j := HasPrev(cmp, its, e, h, m, n - 1);
      if p >= 0 && Before(cmp, g, its[n - 1].entries[p]) {
        g, j := its[n - 1].entries[p], n - 1;
      } else if p >= 0 {
        assert its[n - 1].entries[p] in its[n - 1].entries;
      }
    } else {
      g, j := its[n - 1].entries[p], n - 1;
    }
  }

  lemma SomePrev(cmp: Cmp, its: seq<Cursor>, e: Entry, f: Entry, k: nat)
    requires Family(cmp, its) && k < |its| && SeenIn(its[k], f) && Before(cmp, f, e)
    ensures exists g, j :: IsPrevIn(cmp, its, e, g, j)
  {
    var g, j := HasPrev(cmp, its, e, f, k, |its|);
    assert IsPrevIn(cmp, its, e, g, j);
  }

  lemma PrevUnique(cmp: Cmp, its: seq<Cursor>, e: Entry, f: Entry, i: int, g: Entry, j: int)
    requires Family(cmp, its) && IsPrevIn(cmp, its, e, f, i) && IsPrevIn(cmp, its, e, g, j)
    ensures f == g && i == j
  {
    assert f in its[i].entries && g in its[j].entries && !Before(cmp, f, f);
  }

  /**
    Stepping the current child back and taking the largest lands on the last entry before the
    current key exactly if no other child stands ahead, or after that entry at one it passes over,
    and the one with that entry stands at it.
   */
  lemma LandsExactly(cmp: Cmp, its: seq<Cursor>, its': seq<Cursor>, c: nat, e: Entry, n: nat)
    requires Family(cmp, its) && c < |its| && its[c].Valid() && its[c].Current() == e
    requires its' == its[c := its[c].Prev()] && Largest(cmp, its', n)
    ensures LandsBefore(cmp, its', e, n)
       <==> NoneAhead(cmp, its, c, e) && HolderStands(cmp, its, c, e) && Settled(cmp, its, c, e)
  {
    assert n < |its'|;
    hide LastPut, Family, LandsBefore, Largest, SeenIn, Settled;
    if NoneAhead(cmp, its, c, e) && HolderStands(cmp, its, c, e) && Settled(cmp, its, c, e) {
      LandsRight(cmp, its, its', c, e, n);
    }
    if LandsBefore(cmp, its', e, n) {
      LandedRight(cmp, its, its', c, e, n);
    }
  }

  /** The current child's own step back. */
  lemma StepsOwnBack(cmp: Cmp, it: Cursor)
    requires it.Valid()
    ensures var r := it.Prev(); r.entries == it.entries && r.skips == it.skips && r.Ok()
    ensures var r := it.Prev(); r.Valid() ==> SeenIn(it, r.Current())
    ensures TotalOrder(cmp) && Sorted(cmp, it.entries) ==> it.Prev().pos == LastBefore(cmp, it, it.Current())
  {
    if TotalOrder(cmp) && Sorted(cmp, it.entries) {
      assert forall q :: 0 <= q < it.pos ==> Before(cmp, it.entries[q], it.entries[it.pos]);
    }
  }

  lemma SamePrevs(cmp: Cmp, its: seq<Cursor>, its': seq<Cursor>, e: Entry)
    requires SameChildren(its, its')
    ensures forall f, j :: IsPrevIn(cmp, its, e, f, j) <==> IsPrevIn(cmp, its', e, f, j)
  {
    forall f, j ensures IsPrevIn(cmp, its, e, f, j) <==> IsPrevIn(cmp, its', e, f, j) {
    }
  }

  lemma LandsRight(cmp: Cmp, its: seq<Cursor>, its': seq<Cursor>, c: nat, e: Entry, n: nat)
    requires Family(cmp, its) && c < |its| && its[c].Valid() && its[c].Current() == e
    requires its' == its[c := its[c].Prev()] && Largest(cmp, its', n)
    requires Settled(cmp, its, c, e)
    requires NoneAhead(cmp, its, c, e) && HolderStands(cmp, its, c, e)
    ensures LandsBefore(cmp, its', e, n)
  {
    SamePrevs(cmp, its, its', e);
    OwnStep(cmp, its, its', c, e);
    hide LastPut, LastBefore, SeenIn, Settled, HolderStands, NoneAhead, Family, SameChildren, IsPrevIn, Largest, Passed;
    if g, j :| IsPrevIn(cmp, its, e, g, j) {
      LandsOn(cmp, its, its', c, e, n, g, j);
    } else {
      LandsNowhere(cmp, its, its', e, n);
    }
  }

  /** Where a child stands at the last entry before `e`, no other stands after that. */
  lemma LandsOn(cmp: Cmp, its: seq<Cursor>, its': seq<Cursor>, c: nat, e: Entry, n: nat, g: Entry, j: int)
    requires Family(cmp, its) && c < |its| && its[c].Valid() && its[c].Current() == e && its' == its[c := its[c].Prev()]
    requires Largest(cmp, its', n) && HolderStands(cmp, its, c, e) && IsPrevIn(cmp, its, e, g, j)
    requires forall i :: 0 <= i < |its| && its'[i].Valid() ==>
            && Before(cmp, its'[i].Current(), e)
            && (SeenIn(its[i], its'[i].Current()) || Passed(cmp, its, e, its'[i].Current()))
    ensures its'[n].Valid() && its'[n].Current() == g && n == j
  {
    AllStandBefore(cmp, its, its', c, e, g, j);
    hide SeenIn, HolderStands;
    forall f, i | IsPrevIn(cmp, its, e, f, i) ensures f == g {
      PrevUnique(cmp, its, e, f, i, g, j);
    }
  }

  lemma LandsNowhere(cmp: Cmp, its: seq<Cursor>, its': seq<Cursor>, e: Entry, n: nat)
    requires Family(cmp, its) && |its'| == |its| && n < |its| && forall f, j :: !IsPrevIn(cmp, its, e, f, j)
    requires forall i :: 0 <= i < |its| && its'[i].Valid() ==>
            && Before(cmp, its'[i].Current(), e)
            && (SeenIn(its[i], its'[i].Current()) || Passed(cmp, its, e, its'[i].Current()))
    ensures !its'[n].Valid()
  {
    hide Family, IsPrevIn;
    if its'[n].Valid() && SeenIn(its[n], its'[n].Current()) {
      SomePrev(cmp, its, e, its'[n].Current(), n);
    }
  }

  /** Each child that stands anywhere after the step stands before `e`, and settled. */
  lemma OwnStep(cmp: Cmp, its: seq<Cursor>, its': seq<Cursor>, c: nat, e: Entry)
    requires Family(cmp, its) && c < |its| && its[c].Valid() && its[c].Current() == e && its' == its[c := its[c].Prev()]
    requires Settled(cmp, its, c, e)
    requires NoneAhead(cmp, its, c, e)
    ensures SameChildren(its, its')
    ensures forall i :: 0 <= i < |its| && its'[i].Valid() ==>
            && Before(cmp, its'[i].Current(), e)
            && (SeenIn(its[i], its'[i].Current()) || Passed(cmp, its, e, its'[i].Current()))
  {
    StepsOwnBack(cmp, its[c]);
    LastBeforeIs(cmp, its[c], e);
    hide LastPut, LastBefore, Passed;
  }

  lemma AllStandBefore(cmp: Cmp, its: seq<Cursor>, its': seq<Cursor>, c: nat, e: Entry, g: Entry, j: int)
    requires Family(cmp, its) && c < |its| && its[c].Valid() && its[c].Current() == e && its' == its[c := its[c].Prev()]
    requires HolderStands(cmp, its, c, e) && 0 <= j < |its| && SeenIn(its[j], g) && Before(cmp, g, e)
    requires forall i, h :: 0 <= i < |its| && SeenIn(its[i], h) && Before(cmp, h, e) ==> h == g || Before(cmp, h, g)
    ensures IsPrevIn(cmp, its, e, g, j) && its'[j].Valid() && its'[j].Current() == g
  {
    assert IsPrevIn(cmp, its, e, g, j);
    if j == c {
      StepsOwnBack(cmp, its[c]);
      LastBeforeIs(cmp, its[c], e);
      hide LastPut, LastBefore;
      var p := LastBefore(cmp, its[c], e);
      assert SeenIn(its[c], its[c].entries[p]);
    }
  }

  lemma LandedRight(cmp: Cmp, its: seq<Cursor>, its': seq<Cursor>, c: nat, e: Entry, n: nat)
    requires Family(cmp, its) && c < |its| && its[c].Valid() && its[c].Current() == e
    requires its' == its[c := its[c].Prev()] && Largest(cmp, its', n) && LandsBefore(cmp, its', e, n)
    ensures NoneAhead(cmp, its, c, e) && HolderStands(cmp, its, c, e) && Settled(cmp, its, c, e)
  {
    StepsOwnBack(cmp, its[c]);
    SamePrevs(cmp, its, its', e);
    hide LastPut, LastBefore;
    forall i | 0 <= i < |its| && i != c && its[i].Valid() ensures Before(cmp, its[i].Current(), e) {
      assert its'[i].Valid();
    }
    forall j, f | IsPrevIn(cmp, its, e, f, j) && j != c ensures its[j].Valid() && its[j].Current() == f {
      PrevUnique(cmp, its, e, f, j, its'[n].Current(), n);
    }
  }

  /**
    After a switch, going back lands right exactly if the child with the last entry before has one at or
    after, too.
   */
  lemma SwitchLands(cmp: Cmp, its: seq<Cursor>, c: nat, e: Entry)
    requires Family(cmp, its) && c < |its| && its[c].Valid() && its[c].Current() == e
    ensures var t := Turned(cmp, its, c, e);
      NoneAhead(cmp, t, c, e) && HolderStands(cmp, t, c, e)
      <==> forall f, j :: IsPrevIn(cmp, its, e, f, j) && j != c ==>
          exists g :: g in its[j].entries && !Before(cmp, g, e)
  {
    var t := Turned(cmp, its, c, e);
    SamePrevs(cmp, its, t, e);
    hide Family;
    forall i | 0 <= i < |its| && i != c ensures t[i].Valid() ==> Before(cmp, t[i].Current(), e) {
      ChildSorted(cmp, its, i);
      TurnedStands(cmp, its, c, e, i);
    }
    forall j, f | IsPrevIn(cmp, its, e, f, j) && j != c
      ensures t[j].Valid() && t[j].Current() == f <==> exists g :: g in its[j].entries && !Before(cmp, g, e)
    {
      ChildSorted(cmp, its, j);
      TurnedStands(cmp, its, c, e, j);
      LastBeforeIs(cmp, its[j], e);
      hide LastBefore, SeekPos;
      var p := LastBefore(cmp, its[j], e);
      assert its[j].entries[p] in its[j].entries;
    }
  }

  lemma ChildSorted(cmp: Cmp, its: seq<Cursor>, i: nat)
    requires Family(cmp, its) && i < |its|
    ensures TotalOrder(cmp) && Sorted(cmp, its[i].entries) && its[i].Ok()
  {
  }

  // ----- going on

  /** Every child stands at its first entry at or after `e`. */
  ghost predicate Ahead(cmp: Cmp, its: seq<Cursor>, e: Entry) {
    forall i :: 0 <= i < |its| ==> its[i].pos == SeekPos(cmp, its[i], e)
  }

  /** Every child stands at its first entry after `e`. */
  ghost predicate PastKey(cmp: Cmp, its: seq<Cursor>, e: Entry) {
    forall i :: 0 <= i < |its| ==> StandsPast(cmp, its[i], e)
  }

  ghost predicate StandsPast(cmp: Cmp, it: Cursor, e: Entry) {
    && it.Ok() && (it.Valid() ==> Before(cmp, e, it.Current()))
    && forall q :: 0 <= q < (if it.Valid() then it.pos else |it.entries|) ==> !Before(cmp, e, it.entries[q])
  }

  lemma IsSeekPos(cmp: Cmp, it: Cursor, e: Entry, p: int)
    requires TotalOrder(cmp) && Sorted(cmp, it.entries) && -1 <= p < |it.entries|
    requires p >= 0 ==> !Before(cmp, it.entries[p], e)
    requires forall q :: 0 <= q < (if p >= 0 then p else |it.entries|) ==> Before(cmp, it.entries[q], e)
    ensures SeekPos(cmp, it, e) == p
  {
  }

  /** The smallest of the children's first entries at or after `target` is the first of all. */
  lemma SmallestIsFirst(cmp: Cmp, its: seq<Cursor>, target: Entry, n: nat)
    requires Family(cmp, its) && Ahead(cmp, its, target) && Smallest(cmp, its, n)
    ensures if its[n].Valid() then IsFirst(cmp, its, target, its[n].Current()) && Ahead(cmp, its, its[n].Current())
            else forall f :: HasEntry(its, f) ==> Before(cmp, f, target)
  {
    forall i, f | 0 <= i < |its| && f in its[i].entries && !Before(cmp, f, target)
      ensures its[n].Valid() && (f == its[n].Current() || Before(cmp, its[n].Current(), f))
    {
      var q :| 0 <= q < |its[i].entries| && its[i].entries[q] == f;
      if its[i].pos < q { assert Before(cmp, its[i].entries[its[i].pos], its[i].entries[q]); }
    }
    if its[n].Valid() {
      var e := its[n].Current();
      assert e in its[n].entries;
      forall i | 0 <= i < |its| ensures its[i].pos == SeekPos(cmp, its[i], e) {
        if its[i].Valid() { assert its[i].Current() in its[i].entries; }
        IsSeekPos(cmp, its[i], e, its[i].pos);
      }
    }
  }

  /** The smallest of the children's first entries after `e` is the next of all. */
  lemma SmallestIsNext(cmp: Cmp, its: seq<Cursor>, e: Entry, n: nat)
    requires Family(cmp, its) && PastKey(cmp, its, e) && Smallest(cmp, its, n)
    ensures if its[n].Valid() then IsNext(cmp, its, e, its[n].Current()) && Ahead(cmp, its, its[n].Current())
            else forall f :: HasEntry(its, f) ==> !Before(cmp, e, f)
  {
    forall i, f | 0 <= i < |its| && f in its[i].entries && Before(cmp, e, f)
      ensures its[n].Valid() && (f == its[n].Current() || Before(cmp, its[n].Current(), f))
    {
      var q :| 0 <= q < |its[i].entries| && its[i].entries[q] == f;
      assert StandsPast(cmp, its[i], e);
      if its[i].pos < q { assert Before(cmp, its[i].entries[its[i].pos], its[i].entries[q]); }
    }
    if its[n].Valid() {
      var k := its[n].Current();
      assert k in its[n].entries && StandsPast(cmp, its[n], e);
      forall i | 0 <= i < |its| ensures its[i].pos == SeekPos(cmp, its[i], k) {
        assert StandsPast(cmp, its[i], e);
        if its[i].Valid() { assert its[i].Current() in its[i].entries; }
        BeforeBoth(cmp, its[i], e, k);
        IsSeekPos(cmp, its[i], k, its[i].pos);
      }
    }
  }

  lemma BeforeBoth(cmp: Cmp, it: Cursor, e: Entry, k: Entry)
    requires TotalOrder(cmp) && Before(cmp, e, k)
    ensures forall q :: 0 <= q < |it.entries| && !Before(cmp, e, it.entries[q]) ==> Before(cmp, it.entries[q], k)
  {
  }

  /** With the others at or after the current key, stepping the current child on passes that key everywhere. */
  lemma StepsPast(cmp: Cmp, its: seq<Cursor>, c: nat, e: Entry)
    requires Family(cmp, its) && c < |its| && its[c].Valid() && its[c].Current() == e
    requires forall i :: 0 <= i < |its| && i != c ==> its[i].pos == SeekPos(cmp, its[i], e)
    ensures PastKey(cmp, its[c := its[c].Advance()], e)
  {
    var t := its[c := its[c].Advance()];
    assert e in its[c].entries;
    forall i | 0 <= i < |its| ensures StandsPast(cmp, t[i], e) {
      if i == c {
        assert forall q :: its[c].pos < q < |its[c].entries| ==>
               Before(cmp, its[c].entries[its[c].pos], its[c].entries[q]);
        assert forall q :: 0 <= q < its[c].pos ==> Before(cmp, its[c].entries[q], its[c].entries[its[c].pos]);
      } else if its[i].Valid() {
        assert its[i].Current() in its[i].entries;
      }
    }
  }

  // ----- what each call does

  predicate Better(cmp: Cmp, e: Entry, f: Entry, smallest: bool) {
    if smallest then Before(cmp, e, f) else Before(cmp, f, e)
  }

  /** The smallest or largest of the first `n` children that stand anywhere; the first if none does. */
  ghost function Pick(cmp: Cmp, its: seq<Cursor>, smallest: bool, n: nat): (r: nat)
    requires 0 < n <= |its|
    ensures r < n
  {
    if n == 1 then 0
    else
      var b := Pick(cmp, its, smallest, n - 1);
      if its[n - 1].Valid() && (its[b].Valid() ==> Better(cmp, its[n - 1].Current(), its[b].Current(), smallest))
      then n - 1 else b
  }

  ghost function Picked(cmp: Cmp, its: seq<Cursor>, current: Option<nat>, smallest: bool): Option<nat> {
    if its == [] then current else Some(Pick(cmp, its, smallest, |its|))
  }

  ghost function Sought(cmp: Cmp, its: seq<Cursor>, target: Entry): (r: seq<Cursor>)
    ensures SameChildren(its, r)
  {
    seq(|its|, i requires 0 <= i < |its| => its[i].(pos := SeekPos(cmp, its[i], target)))
  }

  ghost function Restarted(its: seq<Cursor>): (r: seq<Cursor>)
    ensures SameChildren(its, r)
  {
    seq(|its|, i requires 0 <= i < |its| => its[i].(pos := if |its[i].entries| > 0 then 0 else -1))
  }

  /** Where the children stand after the switch to going on from `e` in child `c`. */
  ghost function TurnedOn(cmp: Cmp, its: seq<Cursor>, c: nat, e: Entry): (r: seq<Cursor>)
    requires c < |its|
    ensures SameChildren(its, r) && r[c] == its[c]
  {
    seq(|its|, i requires 0 <= i < |its| => if i == c then its[i] else its[i].(pos := SeekPos(cmp, its[i], e)))
  }

  /** A merging iterator as a value. */
  datatype Merge = Merge(its: seq<Cursor>, current: Option<nat>, direction: Direction) {
    ghost predicate Ok() {
      (current.Some? ==> current.value < |its|) && forall i :: 0 <= i < |its| ==> its[i].Ok()
    }

    ghost predicate Valid() {
      current.Some? && current.value < |its| && its[current.value].Valid()
    }

    ghost function Sight(): Option<Entry> {
      if Valid() then Some(its[current.value].Current()) else None
    }
  }

  datatype Move = To(target: Entry) | ToFirst | Onward | Back

  ghost function Moved(cmp: Cmp, m: Merge, move: Move): (r: Merge)
    requires m.Ok()
    ensures r.Ok() && SameChildren(m.its, r.its)
  {
    match move
    case To(target) => SoughtAll(cmp, m, target)
    case ToFirst => Started(cmp, m)
    case Onward => if m.current.None? then Started(cmp, m) else WentOn(cmp, m)
    case Back => if m.Valid() then WentBack(cmp, m) else m
  }

  ghost function SoughtAll(cmp: Cmp, m: Merge, target: Entry): (r: Merge)
    requires m.Ok()
    ensures r.Ok() && SameChildren(m.its, r.its)
  {
    var its := Sought(cmp, m.its, target);
    Merge(its, Picked(cmp, its, m.current, true), m.direction)
  }

  ghost function Started(cmp: Cmp, m: Merge): (r: Merge)
    requires m.Ok()
    ensures r.Ok() && SameChildren(m.its, r.its)
  {
    var its := Restarted(m.its);
    Merge(its, Picked(cmp, its, None, true), m.direction)
  }

  ghost function WentOn(cmp: Cmp, m: Merge): (r: Merge)
    requires m.Ok() && m.current.Some?
    ensures r.Ok() && SameChildren(m.its, r.its)
  {
    var c := m.current.value;
    var its := if m.Valid() && m.direction == Reverse then TurnedOn(cmp, m.its, c, m.its[c].Current()) else m.its;
    var its' := its[c := its[c].Advance()];
    Merge(its', Picked(cmp, its', m.current, true), if m.Valid() then Forward else m.direction)
  }

  ghost function WentBack(cmp: Cmp, m: Merge): (r: Merge)
    requires m.Ok() && m.Valid()
    ensures r.Ok() && SameChildren(m.its, r.its)
  {
    var c := m.current.value;
    var its := if m.direction == Forward then Turned(cmp, m.its, c, m.its[c].Current()) else m.its;
    var its' := its[c := its[c].Prev()];
    Merge(its', Picked(cmp, its', m.current, false), Reverse)
  }

  /** What is picked of the first `n` children is the smallest, or largest, of those that stand anywhere. */
  ghost predicate BestOf(cmp: Cmp, its: seq<Cursor>, smallest: bool, n: nat, b: nat) {
    && b < n <= |its|
    && forall j :: 0 <= j < n && its[j].Valid() && j != b ==>
         its[b].Valid() && Better(cmp, its[b].Current(), its[j].Current(), smallest)
  }

  lemma {:induction false} PickIsBest(cmp: Cmp, its: seq<Cursor>, smallest: bool, n: nat)
    requires Family(cmp, its) && 0 < n <= |its|
    ensures BestOf(cmp, its, smallest, n, Pick(cmp, its, smallest, n))
  {
    if n > 1 {
      PickIsBest(cmp, its, smallest, n - 1);
      var b := Pick(cmp, its, smallest, n - 1);
      if its[n - 1].Valid() && its[b].Valid() {
        assert its[n - 1].Current() in its[n - 1].entries && its[b].Current() in its[b].entries;
      }
    }
  }

  lemma PickIs(cmp: Cmp, its: seq<Cursor>, smallest: bool)
    requires Family(cmp, its) && its != []
    ensures var n := Pick(cmp, its, smallest, |its|);
      if smallest then Smallest(cmp, its, n) else Largest(cmp, its, n)
  {
    PickIsBest(cmp, its, smallest, |its|);
  }

  /** The smallest or largest of the children that stand anywhere. */
  method Find(cmp: Cmp, its: seq<Cursor>, smallest: bool) returns (n: nat)
    requires Family(cmp, its) && its != []
    ensures n == Pick(cmp, its, smallest, |its|)
    ensures if smallest then Smallest(cmp, its, n) else Largest(cmp, its, n)
  {
    n := 0;
    for i := 1 to |its|
      invariant n < i <= |its| && n == Pick(cmp, its, smallest, i)
    {
      if its[i].Valid() {
        if its[n].Valid() {
          if Better(cmp, its[i].Current(), its[n].Current(), smallest) {
            n := i;
          }
        } else {
          n := i;
        }
      }
    }
    PickIs(cmp, its, smallest);
  }

  /** Puts the children other than `c` at their first entries at or after the key that `c` stands at. */
  method SeekOthers(cmp: Cmp, its: seq<Cursor>, c: nat, key: Entry) returns (r: seq<Cursor>)
    requires Family(cmp, its) && c < |its| && its[c].Valid() && its[c].Current() == key
    ensures Family(cmp, r) && r == TurnedOn(cmp, its, c, key) && Ahead(cmp, r, key)
  {
    hide Sorted, TotalOrder, FirstAtOrAfter, Ahead;
    r := its;
    for i := 0 to |its|
      invariant SameChildren(its, r) && r[c] == its[c] && forall j :: 0 <= j < |r| ==> r[j].Ok()
      invariant forall j :: 0 <= j < i && j != c ==> r[j].pos == SeekPos(cmp, r[j], key)
    {
      if i != c {
        r := r[i := r[i].(pos := SeekPos(cmp, r[i], key))];
        if r[i].Valid() {
          NoSharedVersion(cmp, its, c, i, key, r[i].Current());
          if !Before(cmp, r[i].Current(), key) && !Before(cmp, key, r[i].Current()) {
            assert false;
          }
        }
      }
    }
    SameFamily(cmp, its, r);
    AheadOfOwn(cmp, r, c, key);
    assert r == TurnedOn(cmp, its, c, key);
  }

  /** Puts the children other than `c` before the key, as far as they have an entry at or after it. */
  method TurnOthers(cmp: Cmp, its: seq<Cursor>, c: nat, key: Entry) returns (r: seq<Cursor>)
    requires c < |its|
    ensures r == Turned(cmp, its, c, key)
  {
    hide FirstAtOrAfter, LastBefore;
    ghost var turned := Turned(cmp, its, c, key);
    r := its;
    for i := 0 to |its|
      invariant |r| == |its| && forall j :: 0 <= j < |its| ==> r[j] == if j < i then turned[j] else its[j]
    {
      if i != c {
        SeekThenPrev(cmp, its[i], key);
        var it := r[i].(pos := SeekPos(cmp, r[i], key));
        if it.Valid() {
          it := it.Prev();
        } else {
          it := RunOut(it);
        }
        r := r[i := it];
      }
    }
  }

  lemma TurnedFamily(cmp: Cmp, its: seq<Cursor>, c: nat, e: Entry)
    requires Family(cmp, its) && c < |its|
    ensures Family(cmp, Turned(cmp, its, c, e))
  {
    SameFamily(cmp, its, Turned(cmp, its, c, e));
  }

  method SeekAll(cmp: Cmp, its: seq<Cursor>, target: Entry) returns (r: seq<Cursor>)
    requires Family(cmp, its)
    ensures Family(cmp, r) && r == Sought(cmp, its, target) && Ahead(cmp, r, target)
  {
    hide Sorted, TotalOrder, FirstAtOrAfter;
    r := its;
    for i := 0 to |its|
      invariant SameChildren(its, r) && forall j :: 0 <= j < |r| ==> r[j].Ok()
      invariant forall j :: 0 <= j < i ==> r[j].pos == SeekPos(cmp, r[j], target)
    {
      r := r[i := r[i].(pos := FirstAtOrAfter(cmp, r[i].entries, target, 0))];
    }
    SameFamily(cmp, its, r);
    assert r == Sought(cmp, its, target);
  }

  method RestartAll(cmp: Cmp, its: seq<Cursor>) returns (r: seq<Cursor>)
    requires Family(cmp, its)
    ensures Family(cmp, r) && r == Restarted(its)
  {
    hide Sorted, TotalOrder;
    r := its;
    for i := 0 to |its|
      invariant SameChildren(its, r) && forall j :: 0 <= j < |r| ==> r[j].Ok()
      invariant forall j :: 0 <= j < i ==> r[j].pos == if |r[j].entries| > 0 then 0 else -1
    {
      r := r[i := r[i].(pos := -1).Advance()];
    }
    SameFamily(cmp, its, r);
    assert r == Restarted(its);
  }

  class MergingIter {
    const cmp: Cmp
    var iters: seq<Cursor>
    var current: Option<nat>
    var direction: Direction

    ghost predicate Valid()
      reads this
    {
      Family(cmp, iters) && (current.Some? ==> current.value < |iters|)
    }

    ghost function State(): Merge
      reads this
    {
      Merge(iters, current, direction)
    }

    predicate IsValid()
      reads this
      requires current.Some? ==> current.value < |iters|
    {
      current.Some? && iters[current.value].Valid()
    }

    function Key(): Entry
      reads this
      requires (current.Some? ==> current.value < |iters|) && IsValid()
    {
      iters[current.value].Current()
    }

    /** It stands at an entry, and if it last went on, every child stands at or after that. */
    ghost predicate Placed()
      reads this
    {
      Valid() && IsValid() && (direction == Forward ==> Ahead(cmp, iters, Key()))
    }

    constructor (cmp: Cmp, iters: seq<Cursor>)
      requires Family(cmp, iters)
      ensures Valid() && this.cmp == cmp && this.iters == iters && current == None && direction == Forward
    {
      this.cmp, this.iters := cmp, iters;
      current, direction := None, Forward;
    }

    method FindSmallest()
      requires Valid()
      modifies this`current
      ensures Valid() && current == Picked(cmp, iters, old(current), true)
      ensures if iters == [] then current == old(current) else current.Some? && Smallest(cmp, iters, current.value)
    {
      if iters != [] {
        var n := Find(cmp, iters, true);
        current := Some(n);
      }
    }

    /** Goes to the first entry at or after `target`, or becomes invalid. */
    method Seek(target: Entry)
      requires Valid()
      modifies this
      ensures Valid() && State() == Moved(cmp, old(State()), To(target))
      ensures if IsValid() then Placed() && Ahead(cmp, iters, Key()) && IsFirst(cmp, iters, target, Key())
              else forall f :: HasEntry(iters, f) ==> Before(cmp, f, target)
    {
      hide Sorted, TotalOrder, Family, Pick, IsFirst, Ahead, Smallest, HasEntry;
      iters := SeekAll(cmp, iters, target);
      FindSmallest();
      if iters != [] {
        SmallestIsFirst(cmp, iters, target, current.value);
      } else {
        NoEntries(iters);
      }
    }

    /** Goes to the first entry of all: every child starts over. */
    method SeekToFirst()
      requires Valid()
      modifies this
      ensures Valid() && State() == Moved(cmp, old(State()), ToFirst)
      ensures if IsValid() then Placed() && IsLeast(cmp, iters, Key())
              else forall f :: !HasEntry(iters, f)
    {
      hide Sorted, TotalOrder, Family, Pick, IsLeast, Ahead, Smallest, HasEntry;
      current := None;
      iters := RestartAll(cmp, iters);
      FindSmallest();
      if iters != [] {
        SmallestIsLeast(cmp, iters, current.value);
      } else {
        NoEntries(iters);
      }
    }

    /** Puts the other children at or after the current key, or before it, if the direction changes. */
    method UpdateDirection(d: Direction)
      requires Valid() && IsValid()
      modifies this
      ensures Valid() && SameChildren(old(iters), iters) && direction == d && current == old(current)
      ensures iters[current.value] == old(iters)[current.value]
      ensures d == Forward && old(Placed()) ==> Ahead(cmp, iters, old(Key()))
      ensures d == Forward ==>
                iters == if old(direction) == Forward then old(iters)
                    else TurnedOn(cmp, old(iters), current.value, old(Key()))
      ensures d == Reverse ==>
                iters == if old(direction) == Reverse then old(iters)
                    else Turned(cmp, old(iters), current.value, old(Key()))
    {
      if direction == d {
        return;
      }
      hide Sorted, TotalOrder, FirstAtOrAfter, Ahead, LastBefore, Turned, Family;
      var key, c := Key(), current.value;
      direction := d;
      if d == Forward {
        iters := SeekOthers(cmp, iters, c, key);
      } else {
        TurnedFamily(cmp, iters, c, key);
        iters := TurnOthers(cmp, iters, c, key);
      }
    }

    /** Goes to the next entry of all, or becomes invalid. */
    method Advance() returns (r: bool)
      requires Valid()
      modifies this
      ensures Valid() && State() == Moved(cmp, old(State()), Onward) && r == IsValid()
      ensures old(Placed()) ==>
                if IsValid() then Placed() && IsNext(cmp, iters, old(Key()), Key())
                else forall f :: HasEntry(iters, f) ==> !Before(cmp, old(Key()), f)
      ensures old(current) == None ==>
                if IsValid() then Placed() && IsLeast(cmp, iters, Key())
                else forall f :: !HasEntry(iters, f)
    {
      hide Sorted, TotalOrder, FirstAtOrAfter, Ahead, PastKey, IsNext, HasEntry, Pick, Smallest, TurnedOn, Family;
      if current.None? {
        SeekToFirst();
        return IsValid();
      }
      ghost var placed := Placed();
      if IsValid() {
        UpdateDirection(Forward);
      }
      var c := current.value;
      if placed {
        StepsPastAll(cmp, iters, c, iters[c].Current());
      }
      StepFamily(cmp, iters, c);
      iters := iters[c := iters[c].Advance()];
      FindSmallest();
      if placed {
        SmallestIsNext(cmp, iters, old(Key()), current.value);
      }
      r := IsValid();
    }

    /**
      Goes back. From the direction of going on, it lands on the last entry before exactly if the
      child with that entry is the current one or has an entry at or after the current key; when it
      was going back already, exactly if no other child stands ahead, or after that entry at one it
      passes over, and that one stands there.
     */
    method Prev() returns (r: bool)
      requires Valid()
      modifies this
      ensures Valid() && State() == Moved(cmp, old(State()), Back) && r == IsValid()
      ensures old(IsValid()) ==> var e, c, its := old(Key()), old(current).value, old(iters);
        old(direction) == Forward ==>
          (LandsBefore(cmp, iters, e, current.value)
           <==> forall f, j :: IsPrevIn(cmp, its, e, f, j) && j != c ==>
               exists g :: g in its[j].entries && !Before(cmp, g, e))
      ensures old(IsValid()) ==> var e, c, its := old(Key()), old(current).value, old(iters);
        old(direction) == Reverse ==>
          (LandsBefore(cmp, iters, e, current.value)
           <==> NoneAhead(cmp, its, c, e) && HolderStands(cmp, its, c, e) && Settled(cmp, its, c, e))
      ensures old(IsValid()) ==> Largest(cmp, iters, current.value)
    {
      hide Sorted, TotalOrder, FirstAtOrAfter, Ahead, HasEntry, IsPrevIn, LastBefore, LandsBefore, NoneAhead;
      hide HolderStands, LastPut, SeenIn, Turned, Settled;
      if !IsValid() {
        return false;
      }
      ghost var e, its := Key(), iters;
      var c := current.value;
      UpdateDirection(Reverse);
      ghost var t := iters;
      StepsOwnBack(cmp, iters[c]);
      SameFamily(cmp, iters, iters[c := iters[c].Prev()]);
      iters := iters[c := iters[c].Prev()];
      var n := Find(cmp, iters, false);
      current := Some(n);
      r := IsValid();
      if old(direction) == Forward {
        TurnedSettled(cmp, its, c, e);
        SwitchLands(cmp, its, c, e);
      }
      LandsExactly(cmp, t, iters, c, e, n);
    }
  }

  lemma TurnedSettled(cmp: Cmp, its: seq<Cursor>, c: nat, e: Entry)
    requires Family(cmp, its) && c < |its|
    ensures Settled(cmp, Turned(cmp, its, c, e), c, e)
  {
    var t := Turned(cmp, its, c, e);
    forall i | 0 <= i < |its| && i != c && t[i].Valid() ensures SeenIn(t[i], t[i].Current()) {
      LastBeforeIs(cmp, its[i], e);
    }
  }

  lemma StepsPastAll(cmp: Cmp, its: seq<Cursor>, c: nat, e: Entry)
    requires Family(cmp, its) && c < |its| && its[c].Valid() && its[c].Current() == e && Ahead(cmp, its, e)
    ensures PastKey(cmp, its[c := its[c].Advance()], e)
  {
    hide FirstAtOrAfter, PastKey;
    StepsPast(cmp, its, c, e);
  }

  lemma NoSharedVersion(cmp: Cmp, its: seq<Cursor>, c: nat, i: nat, e: Entry, f: Entry)
    requires Family(cmp, its) && c < |its| && i < |its| && i != c && its[c].Valid() && its[c].Current() == e
    requires f in its[i].entries
    ensures Before(cmp, e, f) || Before(cmp, f, e)
  {
    assert e in its[c].entries;
  }

  lemma AheadOfOwn(cmp: Cmp, its: seq<Cursor>, c: nat, e: Entry)
    requires Family(cmp, its) && c < |its| && its[c].Valid() && its[c].Current() == e
    requires forall i :: 0 <= i < |its| && i != c ==> its[i].pos == SeekPos(cmp, its[i], e)
    ensures Ahead(cmp, its, e)
  {
    assert forall q :: 0 <= q < its[c].pos ==> Before(cmp, its[c].entries[q], its[c].entries[its[c].pos]);
    IsSeekPos(cmp, its[c], e, its[c].pos);
  }

  lemma SeekThenPrev(cmp: Cmp, it: Cursor, e: Entry)
    ensures var s := it.(pos := SeekPos(cmp, it, e));
      && s.Ok() && (s.Valid() ==> s.Prev() == it.(pos := LastBefore(cmp, it, e)))
      && (s.pos == -1 || s.Valid())
  {
  }

  lemma SameFamily(cmp: Cmp, a: seq<Cursor>, b: seq<Cursor>)
    requires Family(cmp, a) && SameChildren(a, b) && forall i :: 0 <= i < |b| ==> b[i].Ok()
    ensures Family(cmp, b)
  {
  }

  lemma StepFamily(cmp: Cmp, its: seq<Cursor>, c: nat)
    requires Family(cmp, its) && c < |its|
    ensures Family(cmp, its[c := its[c].Advance()])
  {
    SameFamily(cmp, its, its[c := its[c].Advance()]);
  }

  lemma NoEntries(its: seq<Cursor>)
    requires its == []
    ensures forall f :: !HasEntry(its, f)
  {
  }

  lemma SmallestIsLeast(cmp: Cmp, its: seq<Cursor>, n: nat)
    requires Family(cmp, its) && Smallest(cmp, its, n)
    requires forall i :: 0 <= i < |its| ==> its[i].pos == if |its[i].entries| > 0 then 0 else -1
    ensures if its[n].Valid() then
              IsLeast(cmp, its, its[n].Current()) && Ahead(cmp, its, its[n].Current())
            else forall f :: !HasEntry(its, f)
  {
    forall i, f | 0 <= i < |its| && f in its[i].entries
      ensures its[n].Valid() && (f == its[n].Current() || Before(cmp, its[n].Current(), f))
    {
      var q :| 0 <= q < |its[i].entries| && its[i].entries[q] == f;
      if 0 < q { assert Before(cmp, its[i].entries[0], its[i].entries[q]); }
    }
    if its[n].Valid() {
      var e := its[n].Current();
      assert e in its[n].entries;
      forall i | 0 <= i < |its| ensures its[i].pos == SeekPos(cmp, its[i], e) {
        if its[i].Valid() { assert its[i].Current() in its[i].entries; }
        IsSeekPos(cmp, its[i], e, its[i].pos);
      }
    }
  }

  // ----- against one merged list

  ghost predicate Merges(cmp: Cmp, its: seq<Cursor>, m: seq<Entry>) {
    Sorted(cmp, m) && forall e :: e in m <==> HasEntry(its, e)
  }

  /** Seeking goes where a cursor over the merged list goes. */
  lemma FirstInMerged(cmp: Cmp, its: seq<Cursor>, m: seq<Entry>, target: Entry, e: Entry)
    requires TotalOrder(cmp) && Merges(cmp, its, m)
    ensures var p := FirstAtOrAfter(cmp, m, target, 0); IsFirst(cmp, its, target, e) <==> p >= 0 && m[p] == e
  {
    var p := FirstAtOrAfter(cmp, m, target, 0);
    if p >= 0 {
      assert m[p] in m;
      forall f | HasEntry(its, f) && !Before(cmp, f, target) ensures f == m[p] || Before(cmp, m[p], f) {
        var q :| 0 <= q < |m| && m[q] == f;
        assert p < q ==> Before(cmp, m[p], m[q]);
      }
    }
  }

  /** Advancing goes to the next entry of the merged list. */
  lemma NextInMerged(cmp: Cmp, its: seq<Cursor>, m: seq<Entry>, p: nat, e: Entry)
    requires TotalOrder(cmp) && Merges(cmp, its, m) && p < |m|
    ensures IsNext(cmp, its, m[p], e) <==> p + 1 < |m| && m[p + 1] == e
  {
    forall f | HasEntry(its, f) && Before(cmp, m[p], f)
      ensures p + 1 < |m| && (f == m[p + 1] || Before(cmp, m[p + 1], f))
    {
      var q :| 0 <= q < |m| && m[q] == f;
      assert q < p ==> Before(cmp, m[q], m[p]);
      assert p + 1 < q ==> Before(cmp, m[p + 1], m[q]);
    }
    if p + 1 < |m| {
      assert m[p + 1] in m && Before(cmp, m[p], m[p + 1]);
    }
  }

  /** The last entry before is the one before in the merged list, if no child passes over deletions. */
  lemma PrevInMerged(cmp: Cmp, its: seq<Cursor>, m: seq<Entry>, p: nat, e: Entry)
    requires TotalOrder(cmp) && Merges(cmp, its, m) && p < |m| && forall i :: 0 <= i < |its| ==> !its[i].skips
    ensures (exists j :: IsPrevIn(cmp, its, m[p], e, j)) <==> p > 0 && m[p - 1] == e
  {
    forall i, f | 0 <= i < |its| && SeenIn(its[i], f) && Before(cmp, f, m[p])
      ensures p > 0 && (f == m[p - 1] || Before(cmp, f, m[p - 1]))
    {
      assert HasEntry(its, f);
      var q :| 0 <= q < |m| && m[q] == f;
      assert p < q ==> Before(cmp, m[p], m[q]);
      assert q < p - 1 ==> Before(cmp, m[q], m[p - 1]);
    }
    if p > 0 {
      assert m[p - 1] in m && Before(cmp, m[p - 1], m[p]);
      var j :| 0 <= j < |its| && m[p - 1] in its[j].entries;
      assert IsPrevIn(cmp, its, m[p], m[p - 1], j);
    }
  }

  // ----- two runs that go wrong

  const A := Entry([1], 1, Value, [])
  const B := Entry([2], 2, Value, [])
  const C := Entry([3], 3, Value, [])

  /** The children with entries A and C or A only, and with B. */
  function Two(withC: bool): seq<Cursor> {
    [Cursor(if withC then [A, C] else [A], -1, false), Cursor([B], -1, false)]
  }

  ghost predicate Ascending(cmp: Cmp) {
    TotalOrder(cmp) && cmp([1], [2]) == Less && cmp([2], [3]) == Less
  }

  lemma TwoFamily(cmp: Cmp, withC: bool)
    requires Ascending(cmp)
    ensures Family(cmp, Two(withC)) && Before(cmp, A, B) && Before(cmp, B, C)
  {
  }

  /** Seeking an entry of theirs finds it, in its child. */
  lemma TwoFound(cmp: Cmp, withC: bool, its: seq<Cursor>, e: Entry)
    requires Ascending(cmp) && SameChildren(Two(withC), its) && e in (if withC then {B, C} else {B})
    ensures HasEntry(its, e) && !Before(cmp, e, e)
    ensures forall f :: IsFirst(cmp, its, e, f) ==> f == e
    ensures forall i :: 0 <= i < |its| && e in its[i].entries ==> i == if e == B then 1 else 0
  {
    assert e in its[if e == B then 1 else 0].entries;
  }

  /** Positions of the two children around B. */
  lemma TwoAround(cmp: Cmp, withC: bool, its: seq<Cursor>)
    requires Ascending(cmp) && SameChildren(Two(withC), its)
    ensures SeekPos(cmp, its[0], B) == if withC then 1 else -1
    ensures SeekPos(cmp, its[1], B) == 0
  {
    var es := its[0].entries;
    assert Before(cmp, A, B) && !Before(cmp, C, B) && !Before(cmp, B, B);
    assert FirstAtOrAfter(cmp, es, B, 1) == if withC then 1 else -1;
  }

  /** One child ends before the key: after going back from the key, its entry is not found. */
  method LostChild(cmp: Cmp) returns (it: MergingIter)
    requires Ascending(cmp)
    ensures it.Valid() && !it.IsValid() && HasEntry(it.iters, A) && Before(cmp, A, B)
  {
    hide Family, Ascending, IsFirst, SeekPos, LandsBefore, IsPrevIn, Before, LastBefore;
    TwoFamily(cmp, false);
    it := new MergingIter(cmp, Two(false));
    it.Seek(B);
    TwoFound(cmp, false, it.iters, B);
    assert it.IsValid() && it.Key() == B && it.current == Some(1);
    TwoAround(cmp, false, it.iters);
    assert A in it.iters[0].entries;
    var r := it.Prev();
  }

  /** Back, seek, back: the second step back goes on instead, as the direction was not reset. */
  method StaleDirection(cmp: Cmp) returns (it: MergingIter)
    requires Ascending(cmp)
    ensures it.Valid() && it.IsValid() && it.Key() == C && Before(cmp, B, C)
  {
    hide Family, Ascending, IsFirst, SeekPos, LandsBefore, IsPrevIn, Before, LastBefore;
    hide Largest, Turned, Settled, NoneAhead, HolderStands, SeenIn;
    TwoFamily(cmp, true);
    it := new MergingIter(cmp, Two(true));
    it.Seek(C);
    TwoFound(cmp, true, it.iters, C);
    var r := it.Prev();
    it.Seek(B);
    TwoFound(cmp, true, it.iters, B);
    assert it.IsValid() && it.Key() == B && it.current == Some(1);
    TwoAround(cmp, true, it.iters);
    ghost var its := it.iters;
    r := it.Prev();
    GoesAhead(cmp, its, it.iters, it.current.value);
  }

  /** With the child before at C, the largest after stepping back from B is C. */
  lemma GoesAhead(cmp: Cmp, its: seq<Cursor>, its': seq<Cursor>, n: nat)
    requires SameChildren(Two(true), its) && its[0].pos == 1 && its[1].pos == 0
    requires its' == its[1 := its[1].Prev()] && Largest(cmp, its', n)
    ensures its'[n].Valid() && its'[n].Current() == C
  {
    assert its'[0].Valid() && !its'[1].Valid();
  }
}
