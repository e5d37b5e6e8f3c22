/** Whole runs of the merging iterator, against runs of one cursor over the merged list. */
module MergingRuns {
  import opened Order
  import opened Versions
  import opened Scan
  import opened DbIter
  import opened Merging

  /** What a client sees after each call of a run. */
  ghost function MergeSights(cmp: Cmp, m: Merge, moves: seq<Move>): seq<Option<Entry>>
    requires m.Ok()
    decreases moves
  {
    if moves == [] then []
    else
      var m' := Moved(cmp, m, moves[0]);
      [m'.Sight()] + MergeSights(cmp, m', moves[1..])
  }

  ghost function CursorMoved(cmp: Cmp, c: Cursor, move: Move): (r: Cursor)
    requires c.Ok()
    ensures r.Ok() && r.entries == c.entries && r.skips == c.skips
  {
    match move
    case To(target) => c.(pos := FirstAtOrAfter(cmp, c.entries, target, 0))
    case ToFirst => c.SeekToFirst()
    case Onward => c.Advance()
    case Back => c.Prev()
  }

  ghost function CursorSight(c: Cursor): Option<Entry> {
    if c.Valid() then Some(c.Current()) else None
  }

  ghost function CursorSights(cmp: Cmp, c: Cursor, moves: seq<Move>): seq<Option<Entry>>
    requires c.Ok()
    decreases moves
  {
    if moves == [] then []
    else
      var c' := CursorMoved(cmp, c, moves[0]);
      [CursorSight(c')] + CursorSights(cmp, c', moves[1..])
  }

  /** The iterator run through its methods. */
  method Run(it: MergingIter, moves: seq<Move>) returns (seen: seq<Option<Entry>>)
    requires it.Valid()
    modifies it
    ensures it.Valid() && old(it.State()).Ok() && seen == MergeSights(it.cmp, old(it.State()), moves)
    decreases moves
  {
    hide Moved, Family;
    StateOk(it);
    if moves == [] {
      return [];
    }
    ghost var m := it.State();
    match moves[0] {
      case To(target) => it.Seek(target);
      case ToFirst => it.SeekToFirst();
      case Onward => var _ := it.Advance();
      case Back => var _ := it.Prev();
    }
    assert it.State() == Moved(it.cmp, m, moves[0]);
    var first := if it.IsValid() then Some(it.Key()) else None;
    var rest := Run(it, moves[1..]);
    seen := [first] + rest;
  }

  lemma StateOk(it: MergingIter)
    requires it.Valid()
    ensures it.State().Ok()
  {
  }

  // ----- only the first child has entries

  ghost predicate OthersEmpty(its: seq<Cursor>) {
    forall i :: 0 < i < |its| ==> its[i].entries == []
  }

  /** The first child stands where the iterator does. */
  ghost predicate Solo(m: Merge) {
    && m.Ok() && m.its != [] && OthersEmpty(m.its)
    && (m.current == Some(0) || (m.current == None && m.its[0].pos == -1))
  }

  lemma {:induction false} PicksFirst(cmp: Cmp, its: seq<Cursor>, smallest: bool, n: nat)
    requires 0 < n <= |its| && forall i :: 0 < i < |its| ==> !its[i].Valid()
    ensures Pick(cmp, its, smallest, n) == 0
  {
    if n > 1 {
      PicksFirst(cmp, its, smallest, n - 1);
    }
  }

  /** Each call on such an iterator is the call on its first child. */
  lemma SoloMoves(cmp: Cmp, m: Merge, move: Move)
    requires Solo(m)
    ensures var m' := Moved(cmp, m, move); Solo(m') && m'.its[0] == CursorMoved(cmp, m.its[0], move)
  {
    var m' := Moved(cmp, m, move);
    PicksFirst(cmp, m'.its, true, |m'.its|);
    PicksFirst(cmp, m'.its, false, |m'.its|);
  }

  /** Every run shows what the first child alone would show. */
  lemma {:induction false} SoloRuns(cmp: Cmp, m: Merge, moves: seq<Move>)
    requires Solo(m)
    ensures MergeSights(cmp, m, moves) == CursorSights(cmp, m.its[0], moves)
    decreases moves
  {
    if moves != [] {
      SoloMoves(cmp, m, moves[0]);
      SoloRuns(cmp, Moved(cmp, m, moves[0]), moves[1..]);
    }
  }

  // ----- another child has entries, too

  /** Fresh children that pass over nothing. */
  ghost predicate Fresh(cmp: Cmp, its: seq<Cursor>) {
    Family(cmp, its) && forall i :: 0 <= i < |its| ==> its[i].pos == -1 && !its[i].skips
  }

  ghost function Start(its: seq<Cursor>): Merge {
    Merge(its, None, Forward)
  }

  lemma FreshOk(cmp: Cmp, its: seq<Cursor>)
    requires Fresh(cmp, its)
    ensures Start(its).Ok()
  {
  }

  /** In a sorted list, seeking the entry at `p` finds it. */
  lemma SeeksItself(cmp: Cmp, es: seq<Entry>, p: nat)
    requires TotalOrder(cmp) && Sorted(cmp, es) && p < |es|
    ensures FirstAtOrAfter(cmp, es, es[p], 0) == p
  {
    assert forall q :: 0 <= q < p ==> Before(cmp, es[q], es[p]);
    assert !Before(cmp, es[p], es[p]);
  }

  /** After the seek for an entry of a child, the iterator shows it. */
  lemma SeekShows(cmp: Cmp, its: seq<Cursor>, e: Entry)
    requires Fresh(cmp, its) && HasEntry(its, e)
    ensures Start(its).Ok()
    ensures var m := Moved(cmp, Start(its), To(e));
      m.Valid() && m.Sight() == Some(e) && m.direction == Forward && Family(cmp, m.its) && SameChildren(its, m.its)
  {
    var m := Moved(cmp, Start(its), To(e));
    SameFamily(cmp, its, m.its);
    PickIs(cmp, m.its, true);
    hide Pick, FirstAtOrAfter, Smallest, Sorted;
    SmallestIsFirst(cmp, m.its, e, m.current.value);
    FoundItself(cmp, its, m.its, e);
  }

  lemma FoundItself(cmp: Cmp, its: seq<Cursor>, its': seq<Cursor>, e: Entry)
    requires TotalOrder(cmp) && SameChildren(its, its') && HasEntry(its, e)
    ensures HasEntry(its', e) && !Before(cmp, e, e)
    ensures forall f :: IsFirst(cmp, its', e, f) ==> f == e
  {
    var i :| 0 <= i < |its| && e in its[i].entries;
    assert e in its'[i].entries;
  }

  lemma TwoMoves(cmp: Cmp, m: Merge, c: Cursor, moves: seq<Move>)
    requires m.Ok() && c.Ok() && |moves| >= 2
    ensures var m' := Moved(cmp, Moved(cmp, m, moves[0]), moves[1]);
      var c' := CursorMoved(cmp, CursorMoved(cmp, c, moves[0]), moves[1]);
      m'.Sight() != CursorSight(c') ==> MergeSights(cmp, m, moves) != CursorSights(cmp, c, moves)
  {
    hide Moved, CursorMoved;
    var m1, c1 := Moved(cmp, m, moves[0]), CursorMoved(cmp, c, moves[0]);
    SightsAfter(cmp, m, c, moves);
    SightsAfter(cmp, m1, c1, moves[1..]);
    if MergeSights(cmp, m, moves) == CursorSights(cmp, c, moves) {
      assert MergeSights(cmp, m, moves)[1..] == CursorSights(cmp, c, moves)[1..];
      assert MergeSights(cmp, m1, moves[1..])[0] == CursorSights(cmp, c1, moves[1..])[0];
    }
  }

  lemma SightsAfter(cmp: Cmp, m: Merge, c: Cursor, moves: seq<Move>)
    requires m.Ok() && c.Ok() && moves != []
    ensures var m', c' := Moved(cmp, m, moves[0]), CursorMoved(cmp, c, moves[0]);
      && MergeSights(cmp, m, moves) != [] && MergeSights(cmp, m, moves)[0] == m'.Sight()
      && MergeSights(cmp, m, moves)[1..] == MergeSights(cmp, m', moves[1..])
      && CursorSights(cmp, c, moves) != [] && CursorSights(cmp, c, moves)[0] == CursorSight(c')
      && CursorSights(cmp, c, moves)[1..] == CursorSights(cmp, c', moves[1..])
  {
  }

  /**
    Two children with entries: the one whose last entry is followed by one of another is lost when
    the iterator turns back there.
   */
  lemma TurnLoses(cmp: Cmp, its: seq<Cursor>, m: seq<Entry>, y: nat, p: nat)
    requires Fresh(cmp, its) && Merges(cmp, its, m) && p + 1 < |m|
    requires y < |its| && m[p] in its[y].entries && forall g :: g in its[y].entries ==> Before(cmp, g, m[p + 1])
    ensures Start(its).Ok()
    ensures var moves := [To(m[p + 1]), Back];
      MergeSights(cmp, Start(its), moves) != CursorSights(cmp, Cursor(m, -1, false), moves)
  {
    var e, c := m[p + 1], Cursor(m, -1, false);
    var moves := [To(e), Back];
    assert m[p + 1] in m;
    SeekShows(cmp, its, e);
    SeeksItself(cmp, m, p + 1);
    assert CursorMoved(cmp, CursorMoved(cmp, c, To(e)), Back).pos == p;
    var m1 := Moved(cmp, Start(its), To(e));
    SameMerges(cmp, its, m1.its, m);
    hide Moved, MergeSights, CursorSights, CursorMoved, Merges, FirstAtOrAfter, HasEntry, Sorted;
    BackMisses(cmp, m1, m, y, p);
    TwoMoves(cmp, Start(its), c, moves);
  }

  lemma SameMerges(cmp: Cmp, its: seq<Cursor>, its': seq<Cursor>, m: seq<Entry>)
    requires SameChildren(its, its') && Merges(cmp, its, m)
    ensures Merges(cmp, its', m)
  {
    forall e ensures HasEntry(its, e) <==> HasEntry(its', e) {
      if i :| 0 <= i < |its| && e in its[i].entries {
        assert e in its'[i].entries;
      }
      if i :| 0 <= i < |its'| && e in its'[i].entries {
        assert its'[i].entries == its[i].entries;
      }
    }
  }

  /** The switch to going back, taken apart. */
  lemma TurnsBack(cmp: Cmp, m: Merge)
    requires m.Ok() && m.Valid() && m.direction == Forward && Family(cmp, m.its)
    ensures var r, c := Moved(cmp, m, Back), m.current.value;
      var t := Turned(cmp, m.its, c, m.its[c].Current());
      && r.current.Some? && r.current.value < |r.its| && r.its == t[c := t[c].Prev()]
      && Family(cmp, t) && t[c] == m.its[c] && Largest(cmp, r.its, r.current.value) && SameChildren(m.its, r.its)
  {
    hide Pick;
    var r, c := Moved(cmp, m, Back), m.current.value;
    var t := Turned(cmp, m.its, c, m.its[c].Current());
    TurnedFamily(cmp, m.its, c, m.its[c].Current());
    SameFamily(cmp, t, r.its);
    PickIs(cmp, r.its, false);
  }

  lemma BackMisses(cmp: Cmp, m1: Merge, m: seq<Entry>, y: nat, p: nat)
    requires m1.Ok() && m1.Valid() && m1.direction == Forward && Family(cmp, m1.its) && Merges(cmp, m1.its, m)
    requires p + 1 < |m| && m1.Sight() == Some(m[p + 1]) && y < |m1.its| && m[p] in m1.its[y].entries
    requires forall i :: 0 <= i < |m1.its| ==> !m1.its[i].skips
    requires forall g :: g in m1.its[y].entries ==> Before(cmp, g, m[p + 1])
    ensures Moved(cmp, m1, Back).Sight() != Some(m[p])
  {
    var e, c, r := m[p + 1], m1.current.value, Moved(cmp, m1, Back);
    var t, n := Turned(cmp, m1.its, c, e), r.current.value;
    TurnsBack(cmp, m1);
    HeldOnce(cmp, m1.its, m, y, p);
    NotItself(cmp, m1.its, c, y, e);
    hide Moved, Turned, Family, Merges, LandsBefore, NoneAhead, HolderStands, Settled, Largest, IsPrevIn;
    LandsExactly(cmp, t, r.its, c, e, n);
    SwitchLands(cmp, m1.its, c, e);
    WouldLand(cmp, m1.its, r.its, e, m[p], y, n);
  }

  lemma NotItself(cmp: Cmp, its: seq<Cursor>, c: nat, y: nat, e: Entry)
    requires TotalOrder(cmp) && c < |its| && y < |its| && its[c].Valid() && its[c].Current() == e
    requires forall g :: g in its[y].entries ==> Before(cmp, g, e)
    ensures y != c && !exists g :: g in its[y].entries && !Before(cmp, g, e)
  {
    assert e in its[c].entries && !Before(cmp, e, e);
  }

  /** Showing the last entry before `e` is landing right. */
  lemma WouldLand(cmp: Cmp, its: seq<Cursor>, its': seq<Cursor>, e: Entry, f: Entry, y: nat, n: nat)
    requires SameChildren(its, its') && n < |its'| && IsPrevIn(cmp, its, e, f, y)
    requires forall i :: 0 <= i < |its| ==> !its[i].skips
    ensures its'[n].Valid() && its'[n].Current() == f ==> LandsBefore(cmp, its', e, n)
  {
    SamePrevs(cmp, its, its', e);
    if its'[n].Valid() && its'[n].Current() == f {
      assert f in its'[n].entries;
      assert IsPrevIn(cmp, its', e, f, n);
    }
  }

  lemma HeldOnce(cmp: Cmp, its: seq<Cursor>, m: seq<Entry>, y: nat, p: nat)
    requires Family(cmp, its) && Merges(cmp, its, m) && p + 1 < |m| && y < |its| && m[p] in its[y].entries
    requires forall i :: 0 <= i < |its| ==> !its[i].skips
    ensures IsPrevIn(cmp, its, m[p + 1], m[p], y)
  {
    PrevInMerged(cmp, its, m, p + 1, m[p]);
    var j :| IsPrevIn(cmp, its, m[p + 1], m[p], j);
  }

  /** With two children that have entries, one of them ends before another entry. */
  lemma EndsEarlier(cmp: Cmp, its: seq<Cursor>, m: seq<Entry>, a: nat, b: nat) returns (y: nat, p: nat)
    requires Family(cmp, its) && Merges(cmp, its, m)
    requires a < |its| && b < |its| && a != b && its[a].entries != [] && its[b].entries != []
    ensures p + 1 < |m| && y < |its| && m[p] in its[y].entries
    ensures forall g :: g in its[y].entries ==> Before(cmp, g, m[p + 1])
  {
    var ea, eb := its[a].entries[|its[a].entries| - 1], its[b].entries[|its[b].entries| - 1];
    assert ea in its[a].entries && eb in its[b].entries;
    assert HasEntry(its, ea) && HasEntry(its, eb);
    var last, next;
    if Before(cmp, ea, eb) {
      y, last, next := a, ea, eb;
    } else {
      y, last, next := b, eb, ea;
    }
    p :| 0 <= p < |m| && m[p] == last;
    var q :| 0 <= q < |m| && m[q] == next;
    hide HasEntry, Merges;
    NextAfterLast(cmp, its[y].entries, m, p, q);
  }

  lemma NextAfterLast(cmp: Cmp, es: seq<Entry>, m: seq<Entry>, p: nat, q: nat)
    requires TotalOrder(cmp) && Sorted(cmp, es) && Sorted(cmp, m) && es != [] && p < |m| && q < |m|
    requires m[p] == es[|es| - 1] && Before(cmp, m[p], m[q])
    ensures p + 1 < |m| && forall g :: g in es ==> Before(cmp, g, m[p + 1])
  {
    assert q < p ==> Before(cmp, m[q], m[p]);
    assert p + 1 < |m| ==> Before(cmp, m[p], m[p + 1]);
    forall g | g in es ensures Before(cmp, g, m[p + 1]) {
      var i :| 0 <= i < |es| && es[i] == g;
      assert i < |es| - 1 ==> Before(cmp, es[i], es[|es| - 1]);
    }
  }

  // ----- the first child has none

  ghost predicate NoneStands(its: seq<Cursor>) {
    forall i :: 0 <= i < |its| ==> !its[i].Valid()
  }

  lemma EndsWith(cmp: Cmp, es: seq<Entry>, p: nat, last: Entry)
    requires TotalOrder(cmp) && Sorted(cmp, es) && p < |es| && es[p] == last
    requires forall f :: f in es ==> f == last || Before(cmp, f, last)
    ensures p == |es| - 1
  {
    assert es[|es| - 1] in es;
    assert p < |es| - 1 ==> Before(cmp, es[p], es[|es| - 1]);
  }

  /** Where the last entry is shown, no other child stands anywhere, and going on leaves none standing. */
  lemma LastStands(cmp: Cmp, its: seq<Cursor>, m: seq<Entry>, c: nat)
    requires Family(cmp, its) && Merges(cmp, its, m) && m != [] && c < |its|
    requires forall i :: 0 <= i < |its| ==> its[i].pos == SeekPos(cmp, its[i], m[|m| - 1])
    requires its[c].Valid() && its[c].Current() == m[|m| - 1]
    ensures NoneStands(its[c := its[c].Advance()])
  {
    hide FirstAtOrAfter;
    var last := m[|m| - 1];
    forall i, f | 0 <= i < |its| && f in its[i].entries ensures f == last || Before(cmp, f, last) {
      assert HasEntry(its, f);
      var q :| 0 <= q < |m| && m[q] == f;
      assert q < |m| - 1 ==> Before(cmp, m[q], last);
    }
    forall i | 0 <= i < |its| && i != c ensures !its[i].Valid() {
      if its[i].Valid() {
        assert its[i].Current() in its[i].entries;
        NoSharedVersion(cmp, its, c, i, last, its[i].Current());
      }
    }
    EndsWith(cmp, its[c].entries, its[c].pos, last);
  }

  /** Where none stands, going on moves the first child. */
  lemma OnwardFromNone(cmp: Cmp, m: Merge)
    requires m.Ok() && m.its != [] && m.its[0].entries == [] && NoneStands(m.its) && m.current == Some(0)
    ensures Moved(cmp, m, Onward).Sight() == None
  {
    var r := Moved(cmp, m, Onward);
    assert NoneStands(r.its);
  }

  lemma OnwardFromLast(cmp: Cmp, m1: Merge, m: seq<Entry>)
    requires m1.Ok() && m1.Valid() && m1.direction == Forward && Family(cmp, m1.its) && Merges(cmp, m1.its, m)
    requires m != [] && m1.Sight() == Some(m[|m| - 1])
    requires forall i :: 0 <= i < |m1.its| ==> m1.its[i].pos == SeekPos(cmp, m1.its[i], m[|m| - 1])
    ensures var r := Moved(cmp, m1, Onward); NoneStands(r.its) && r.current == Some(0)
  {
    LastStands(cmp, m1.its, m, m1.current.value);
    var r := Moved(cmp, m1, Onward);
    PicksFirst(cmp, r.its, true, |r.its|);
  }

  /** Past the end, an iterator whose first child is empty does not start over. */
  lemma StaysOut(cmp: Cmp, its: seq<Cursor>, m: seq<Entry>)
    requires Fresh(cmp, its) && Merges(cmp, its, m) && m != [] && its != [] && its[0].entries == []
    ensures Start(its).Ok()
    ensures var moves := [To(m[|m| - 1]), Onward, Onward];
      MergeSights(cmp, Start(its), moves) != CursorSights(cmp, Cursor(m, -1, false), moves)
  {
    var e, c := m[|m| - 1], Cursor(m, -1, false);
    var moves := [To(e), Onward, Onward];
    assert e in m;
    SeekShows(cmp, its, e);
    SeeksItself(cmp, m, |m| - 1);
    var m1, c1 := Moved(cmp, Start(its), To(e)), CursorMoved(cmp, c, To(e));
    assert CursorMoved(cmp, CursorMoved(cmp, c1, Onward), Onward).pos == 0;
    SameMerges(cmp, its, m1.its, m);
    OnwardFromLast(cmp, m1, m);
    hide Moved, MergeSights, CursorSights, CursorMoved, Merges, FirstAtOrAfter, HasEntry, Sorted, Family;
    OnwardFromNone(cmp, Moved(cmp, m1, Onward));
    TwoMoves(cmp, m1, c1, moves[1..]);
    SightsAfter(cmp, Start(its), c, moves);
  }

  // ----- going on only

  /** Going on, the iterator shows what the cursor shows, and its children stand where it needs them. */
  ghost predicate InStep(cmp: Cmp, m: Merge, c: Cursor) {
    && m.Ok() && c.Ok() && m.direction == Forward && Family(cmp, m.its) && Merges(cmp, m.its, c.entries)
    && m.Sight() == CursorSight(c)
    && (m.Valid() ==> Ahead(cmp, m.its, m.its[m.current.value].Current()))
  }

  /** A call that does not go back; going on is asked of an iterator that is new or shows something. */
  ghost predicate GoesOn(m: Merge, c: Cursor, move: Move) {
    !move.Back? && (move.Onward? && !c.Valid() ==> m.current.None? && c.pos == -1)
  }

  /** The state after each kind of call, in terms of the smallest child. */
  lemma ToSmallest(cmp: Cmp, m: Merge, its: seq<Cursor>, r: Merge)
    requires Family(cmp, m.its) && SameChildren(m.its, its) && (forall i :: 0 <= i < |its| ==> its[i].Ok())
    requires r.its == its && its != [] && r.current == Some(Pick(cmp, its, true, |its|))
    ensures r.current.value < |its| && Family(cmp, its) && Smallest(cmp, its, r.current.value)
  {
    SameFamily(cmp, m.its, its);
    PickIs(cmp, its, true);
  }

  lemma SeekInStep(cmp: Cmp, m: Merge, c: Cursor, target: Entry)
    requires InStep(cmp, m, c) && m.its != []
    ensures InStep(cmp, Moved(cmp, m, To(target)), CursorMoved(cmp, c, To(target)))
  {
    var r, es := Moved(cmp, m, To(target)), c.entries;
    ToSmallest(cmp, m, r.its, r);
    SameMerges(cmp, m.its, r.its, es);
    assert Ahead(cmp, r.its, target);
    hide Pick, Smallest, FirstAtOrAfter, Merges, Family, Moved, SameChildren;
    SmallestIsFirst(cmp, r.its, target, r.current.value);
    MergesTotal(cmp, r.its);
    if r.Valid() {
      FirstInMerged(cmp, r.its, es, target, r.its[r.current.value].Current());
    } else {
      NothingFrom(cmp, r.its, es, target);
    }
  }

  lemma MergesTotal(cmp: Cmp, its: seq<Cursor>)
    requires Family(cmp, its)
    ensures TotalOrder(cmp)
  {
  }

  lemma NothingFrom(cmp: Cmp, its: seq<Cursor>, m: seq<Entry>, target: Entry)
    requires Merges(cmp, its, m) && forall f :: HasEntry(its, f) ==> Before(cmp, f, target)
    ensures FirstAtOrAfter(cmp, m, target, 0) == -1
  {
    assert forall p :: 0 <= p < |m| ==> m[p] in m;
  }

  lemma StartInStep(cmp: Cmp, m: Merge, c: Cursor)
    requires InStep(cmp, m, c) && m.its != []
    ensures InStep(cmp, Started(cmp, m), c.SeekToFirst())
  {
    var r, es := Started(cmp, m), c.entries;
    ToSmallest(cmp, m, r.its, r);
    SameMerges(cmp, m.its, r.its, es);
    hide Pick, Smallest, FirstAtOrAfter, Merges, Family, SameChildren;
    SmallestIsLeast(cmp, r.its, r.current.value);
    MergesTotal(cmp, r.its);
    if r.Valid() {
      LeastInMerged(cmp, r.its, es, r.its[r.current.value].Current());
    } else {
      NothingAtAll(cmp, r.its, es);
    }
  }

  lemma LeastInMerged(cmp: Cmp, its: seq<Cursor>, m: seq<Entry>, e: Entry)
    requires TotalOrder(cmp) && Merges(cmp, its, m) && IsLeast(cmp, its, e)
    ensures m != [] && m[0] == e
  {
    assert e in m;
    assert m[0] in m;
    var q :| 0 <= q < |m| && m[q] == e;
    assert 0 < q ==> Before(cmp, m[0], m[q]);
  }

  lemma NothingAtAll(cmp: Cmp, its: seq<Cursor>, m: seq<Entry>)
    requires Merges(cmp, its, m) && forall f :: !HasEntry(its, f)
    ensures m == []
  {
    if m != [] {
      Held(cmp, its, m, 0);
    }
  }

  lemma Held(cmp: Cmp, its: seq<Cursor>, m: seq<Entry>, q: nat)
    requires Merges(cmp, its, m) && q < |m|
    ensures HasEntry(its, m[q]) && (q > 0 ==> Before(cmp, m[q - 1], m[q]))
  {
    assert m[q] in m;
  }

  /** Going on from an entry steps its child on and takes the smallest. */
  lemma OnwardShape(cmp: Cmp, m: Merge)
    requires m.Ok() && m.Valid() && m.direction == Forward
    ensures var r, n := Moved(cmp, m, Onward), m.current.value;
      && r.its == m.its[n := m.its[n].Advance()] && r.its != [] && r.direction == Forward
      && r.current == Some(Pick(cmp, r.its, true, |r.its|))
  {
  }

  lemma OnwardInStep(cmp: Cmp, m: Merge, c: Cursor)
    requires InStep(cmp, m, c) && c.Valid()
    ensures InStep(cmp, Moved(cmp, m, Onward), CursorMoved(cmp, c, Onward))
  {
    OnwardShape(cmp, m);
    hide Pick, Smallest, FirstAtOrAfter, Merges, Family, SameChildren, Moved, PastKey, Ahead, IsNext, HasEntry;
    var r, es, e, n := Moved(cmp, m, Onward), c.entries, c.Current(), m.current.value;
    ToSmallest(cmp, m, r.its, r);
    SameMerges(cmp, m.its, r.its, es);
    StepsPastAll(cmp, m.its, n, e);
    SmallestIsNext(cmp, r.its, e, r.current.value);
    MergesTotal(cmp, r.its);
    if r.Valid() {
      NextInMerged(cmp, r.its, es, c.pos, r.its[r.current.value].Current());
    } else {
      NothingAfter(cmp, r.its, es, c.pos);
    }
  }

  lemma NothingAfter(cmp: Cmp, its: seq<Cursor>, m: seq<Entry>, p: nat)
    requires TotalOrder(cmp) && Merges(cmp, its, m) && p < |m| && forall f :: HasEntry(its, f) ==> !Before(cmp, m[p], f)
    ensures p == |m| - 1
  {
    if p + 1 < |m| {
      Held(cmp, its, m, p + 1);
    }
  }

  lemma MoveInStep(cmp: Cmp, m: Merge, c: Cursor, move: Move)
    requires InStep(cmp, m, c) && m.its != [] && GoesOn(m, c, move)
    ensures InStep(cmp, Moved(cmp, m, move), CursorMoved(cmp, c, move))
  {
    match move {
      case To(target) => SeekInStep(cmp, m, c, target);
      case ToFirst => StartInStep(cmp, m, c);
      case Onward =>
        if c.Valid() {
          OnwardInStep(cmp, m, c);
        } else {
          StartInStep(cmp, m, c);
        }
    }
  }

  /** All calls of a run go on. */
  ghost predicate AllGoOn(cmp: Cmp, m: Merge, c: Cursor, moves: seq<Move>)
    requires m.Ok() && c.Ok()
    decreases moves
  {
    moves == [] || (GoesOn(m, c, moves[0])
      && AllGoOn(cmp, Moved(cmp, m, moves[0]), CursorMoved(cmp, c, moves[0]), moves[1..]))
  }

  /** Over any children, a run that never goes back, or on past the end, shows the merged list. */
  lemma {:induction false} ForwardRuns(cmp: Cmp, m: Merge, c: Cursor, moves: seq<Move>)
    requires InStep(cmp, m, c) && m.its != [] && AllGoOn(cmp, m, c, moves)
    ensures MergeSights(cmp, m, moves) == CursorSights(cmp, c, moves)
    decreases moves
  {
    if moves != [] {
      hide Moved, CursorMoved, GoesOn;
      MoveInStep(cmp, m, c, moves[0]);
      ForwardRuns(cmp, Moved(cmp, m, moves[0]), CursorMoved(cmp, c, moves[0]), moves[1..]);
    }
  }

  /** From the start, in particular. */
  lemma ForwardFromStart(cmp: Cmp, its: seq<Cursor>, es: seq<Entry>, moves: seq<Move>)
    requires Family(cmp, its) && its != [] && Merges(cmp, its, es) && Start(its).Ok()
    requires AllGoOn(cmp, Start(its), Cursor(es, -1, false), moves)
    ensures MergeSights(cmp, Start(its), moves) == CursorSights(cmp, Cursor(es, -1, false), moves)
  {
    hide Merges, Family, AllGoOn, MergeSights, CursorSights;
    ForwardRuns(cmp, Start(its), Cursor(es, -1, false), moves);
  }

  // ----- exactly when

  /**
    Every run of a merging iterator shows what a cursor over the merged list shows, exactly if no
    child but the first has entries.
   */
  lemma RunsMergeExactly(cmp: Cmp, its: seq<Cursor>, m: seq<Entry>)
    requires Fresh(cmp, its) && Merges(cmp, its, m)
    ensures Start(its).Ok()
    ensures (forall moves :: MergeSights(cmp, Start(its), moves) == CursorSights(cmp, Cursor(m, -1, false), moves))
       <==> OthersEmpty(its)
  {
    FreshOk(cmp, its);
    hide MergeSights, CursorSights, Merges, Family, Merge.Ok, OthersEmpty;
    if OthersEmpty(its) {
      forall moves ensures MergeSights(cmp, Start(its), moves) == CursorSights(cmp, Cursor(m, -1, false), moves) {
        FirstOnlyAgrees(cmp, its, m, moves);
      }
    } else {
      var moves := OthersDisagree(cmp, its, m);
    }
  }

  lemma FirstOnlyAgrees(cmp: Cmp, its: seq<Cursor>, m: seq<Entry>, moves: seq<Move>)
    requires Fresh(cmp, its) && Merges(cmp, its, m) && OthersEmpty(its) && Start(its).Ok()
    ensures MergeSights(cmp, Start(its), moves) == CursorSights(cmp, Cursor(m, -1, false), moves)
  {
    OnlyFirst(cmp, its, m);
    hide MergeSights, CursorSights, Merges, Family;
    if its == [] {
      NoRuns(cmp, Start(its), moves);
    } else {
      SoloRuns(cmp, Start(its), moves);
    }
  }

  lemma OthersDisagree(cmp: Cmp, its: seq<Cursor>, m: seq<Entry>) returns (moves: seq<Move>)
    requires Fresh(cmp, its) && Merges(cmp, its, m) && !OthersEmpty(its) && Start(its).Ok()
    ensures MergeSights(cmp, Start(its), moves) != CursorSights(cmp, Cursor(m, -1, false), moves)
  {
    hide MergeSights, CursorSights, Merges, Family;
    var k :| 0 < k < |its| && its[k].entries != [];
    if its[0].entries == [] {
      MergesSome(cmp, its, m, k);
      StaysOut(cmp, its, m);
      moves := [To(m[|m| - 1]), Onward, Onward];
    } else {
      var y, p := EndsEarlier(cmp, its, m, 0, k);
      TurnLoses(cmp, its, m, y, p);
      moves := [To(m[p + 1]), Back];
    }
  }

  lemma MergesSome(cmp: Cmp, its: seq<Cursor>, m: seq<Entry>, k: nat)
    requires Merges(cmp, its, m) && k < |its| && its[k].entries != []
    ensures m != []
  {
    assert HasEntry(its, its[k].entries[0]);
  }

  /** The merged list is then that of the first child. */
  lemma OnlyFirst(cmp: Cmp, its: seq<Cursor>, m: seq<Entry>)
    requires Family(cmp, its) && Merges(cmp, its, m) && OthersEmpty(its)
    ensures m == if its == [] then [] else its[0].entries
  {
    var es := if its == [] then [] else its[0].entries;
    forall e ensures e in m <==> e in es {
      assert HasEntry(its, e) <==> e in es;
    }
    SortedUnique(cmp, m, es);
  }

  lemma {:induction false} SortedUnique(cmp: Cmp, a: seq<Entry>, b: seq<Entry>)
    requires TotalOrder(cmp) && Sorted(cmp, a) && Sorted(cmp, b) && forall e :: e in a <==> e in b
    ensures a == b
    decreases |a|
  {
    assert (a != [] ==> a[0] in a) && (b != [] ==> b[0] in b);
    if a != [] && b != [] {
      var i :| 0 <= i < |b| && b[i] == a[0];
      var j :| 0 <= j < |a| && a[j] == b[0];
      assert 0 < i ==> Before(cmp, b[0], b[i]);
      assert 0 < j ==> Before(cmp, a[0], a[j]);
      TailHas(cmp, a, b);
      SortedUnique(cmp, a[1..], b[1..]);
    }
  }

  lemma TailHas(cmp: Cmp, a: seq<Entry>, b: seq<Entry>)
    requires TotalOrder(cmp) && Sorted(cmp, a) && Sorted(cmp, b) && a != [] && b != [] && a[0] == b[0]
    requires forall e :: e in a <==> e in b
    ensures forall e :: e in a[1..] <==> e in b[1..]
    ensures Sorted(cmp, a[1..]) && Sorted(cmp, b[1..])
  {
    assert forall i :: 0 < i < |a| ==> Before(cmp, a[0], a[i]);
    assert forall i :: 0 < i < |b| ==> Before(cmp, b[0], b[i]);
    forall e ensures e in a[1..] <==> e in b[1..] {
      assert e in a <==> e == a[0] || e in a[1..];
      assert e in b <==> e == b[0] || e in b[1..];
    }
  }

  lemma {:induction false} NoRuns(cmp: Cmp, m: Merge, moves: seq<Move>)
    requires m.Ok() && m.its == [] && m.current == None
    ensures MergeSights(cmp, m, moves) == CursorSights(cmp, Cursor([], -1, false), moves)
    decreases moves
  {
    if moves != [] {
      NoRuns(cmp, Moved(cmp, m, moves[0]), moves[1..]);
    }
  }
}
