/** When a compaction is to finish an output file early, because of the files two levels down that it overlaps. */
module EarlyStops {
  import opened Order
  import opened Versions
  import opened Compaction

  /** A file two levels down, as far as it limits output files. */
  datatype Grandparent = Grandparent(largest: Entry, size: nat)

  /** The next such file, whether a key was seen, and the bytes passed since the last stop. */
  datatype Overlap = Overlap(ix: nat, seen: bool, passed: nat)

  /** Total size of the files from `a` up to `z`. */
  function Sizes(gs: seq<Grandparent>, a: nat, z: nat): nat
    requires a <= z <= |gs|
    decreases z - a
  {
    if a == z then 0 else gs[a].size + Sizes(gs, a + 1, z)
  }

  lemma {:induction false} SizesAdd(gs: seq<Grandparent>, a: nat, m: nat, z: nat)
    requires a <= m <= z <= |gs|
    ensures Sizes(gs, a, z) == Sizes(gs, a, m) + Sizes(gs, m, z)
    decreases m - a
  {
    if a < m {
      SizesAdd(gs, a + 1, m, z);
    }
  }

  /** The files that end before `k` are passed; they count unless `k` is the first key. */
  function Passing(cmp: Cmp, gs: seq<Grandparent>, o: Overlap, k: Entry): (r: Overlap)
    ensures o.ix <= r.ix && r.seen == o.seen && (o.ix <= |gs| ==> r.ix <= |gs|)
    ensures r.ix < |gs| ==> !Before(cmp, gs[r.ix].largest, k)
    decreases |gs| - o.ix
  {
    if o.ix < |gs| && Before(cmp, gs[o.ix].largest, k)
    then Passing(cmp, gs, Overlap(o.ix + 1, o.seen, o.passed + if o.seen then gs[o.ix].size else 0), k)
    else o
  }

  function StopStep(cmp: Cmp, gs: Option<seq<Grandparent>>, max: nat, o: Overlap, k: Entry): (Overlap, bool) {
    if gs.None? then (o.(seen := true), false)
    else
      var p := Passing(cmp, gs.value, o, k).(seen := true);
      if p.passed > 10 * max then (p.(passed := 0), true) else (p, false)
  }

  /** The state after the first `n` keys of the input. */
  function OverlapAt(cmp: Cmp, gs: Option<seq<Grandparent>>, max: nat, es: seq<Entry>, n: nat): Overlap
    requires n <= |es|
  {
    if n == 0 then Overlap(0, false, 0) else StopStep(cmp, gs, max, OverlapAt(cmp, gs, max, es, n - 1), es[n - 1]).0
  }

  /** Whether the compaction of `es` is to stop before its entry at `i`. */
  predicate StopsBefore(cmp: Cmp, gs: Option<seq<Grandparent>>, max: nat, es: seq<Entry>, i: nat) {
    i < |es| && StopStep(cmp, gs, max, OverlapAt(cmp, gs, max, es, i), es[i]).1
  }

  /** The file at which counting began: the one reached at the first key, or at the last stop since. */
  ghost function Since(cmp: Cmp, gs: seq<Grandparent>, max: nat, es: seq<Entry>, n: nat): nat
    requires n <= |es|
  {
    if n <= 1 || StopsBefore(cmp, Some(gs), max, es, n - 1) then OverlapAt(cmp, Some(gs), max, es, n).ix
    else Since(cmp, gs, max, es, n - 1)
  }

  lemma SizesNone(gs: seq<Grandparent>, a: nat)
    ensures a <= |gs| ==> Sizes(gs, a, a) == 0
  {
  }

  /** What passing files comes to. */
  lemma {:induction false} PassingAdds(cmp: Cmp, gs: seq<Grandparent>, o: Overlap, k: Entry)
    requires o.ix <= |gs|
    ensures var r := Passing(cmp, gs, o, k);
      && o.ix <= r.ix <= |gs| && (forall j :: o.ix <= j < r.ix ==> Before(cmp, gs[j].largest, k))
      && r.passed == o.passed + if o.seen then Sizes(gs, o.ix, r.ix) else 0
    decreases |gs| - o.ix
  {
    if o.ix < |gs| && Before(cmp, gs[o.ix].largest, k) {
      PassingAdds(cmp, gs, Overlap(o.ix + 1, o.seen, o.passed + if o.seen then gs[o.ix].size else 0), k);
    }
  }

  ghost predicate Sums(cmp: Cmp, gs: seq<Grandparent>, max: nat, es: seq<Entry>, n: nat)
    requires n <= |es|
  {
    var o, since := OverlapAt(cmp, Some(gs), max, es, n), Since(cmp, gs, max, es, n);
    since <= o.ix <= |gs| && o.passed == Sizes(gs, since, o.ix) && (o.seen <==> n > 0)
  }

  /** One more key: what was passed before and what it passes make up one sum. */
  lemma SumGrows(cmp: Cmp, gs: seq<Grandparent>, max: nat, es: seq<Entry>, n: nat)
    requires n < |es| && Sums(cmp, gs, max, es, n)
    ensures var o, since := OverlapAt(cmp, Some(gs), max, es, n), Since(cmp, gs, max, es, n);
      var p := Passing(cmp, gs, o, es[n]);
      && o.ix <= p.ix <= |gs| && (forall j :: o.ix <= j < p.ix ==> Before(cmp, gs[j].largest, es[n]))
      && p.passed == if n > 0 then Sizes(gs, since, p.ix) else 0
  {
    var o, since := OverlapAt(cmp, Some(gs), max, es, n), Since(cmp, gs, max, es, n);
    PassingAdds(cmp, gs, o, es[n]);
    SizesAdd(gs, since, o.ix, Passing(cmp, gs, o, es[n]).ix);
    hide Passing, Sizes;
  }

  lemma {:induction false} PassedIsSum(cmp: Cmp, gs: seq<Grandparent>, max: nat, es: seq<Entry>, n: nat)
    requires n <= |es|
    ensures Sums(cmp, gs, max, es, n)
  {
    if n > 0 {
      PassedIsSum(cmp, gs, max, es, n - 1);
      SumGrows(cmp, gs, max, es, n - 1);
      SizesNone(gs, OverlapAt(cmp, Some(gs), max, es, n).ix);
      hide Passing, Sizes;
    }
  }

  /**
    The compaction stops before a key exactly if it is not the first and the files that end before
    it, from where counting began, exceed ten times the maximum file size.
   */
  lemma StopsBySum(cmp: Cmp, gs: seq<Grandparent>, max: nat, es: seq<Entry>, i: nat)
    requires i < |es|
    ensures var since, z := Since(cmp, gs, max, es, i), OverlapAt(cmp, Some(gs), max, es, i + 1).ix;
      && since <= z <= |gs| && (z < |gs| ==> !Before(cmp, gs[z].largest, es[i]))
      && (forall j :: OverlapAt(cmp, Some(gs), max, es, i).ix <= j < z ==> Before(cmp, gs[j].largest, es[i]))
      && (StopsBefore(cmp, Some(gs), max, es, i) <==> i > 0 && Sizes(gs, since, z) > 10 * max)
  {
    PassedIsSum(cmp, gs, max, es, i);
    SumGrows(cmp, gs, max, es, i);
    hide Passing;
  }

  /** Without files two levels down, nothing stops a compaction early. */
  lemma NeverStopsWithout(cmp: Cmp, max: nat, es: seq<Entry>, i: nat)
    requires i < |es|
    ensures !StopsBefore(cmp, None, max, es, i)
  {
  }

  class StopTracker {
    const cmp: Cmp
    const grandparents: Option<seq<Grandparent>>
    const maxFileSize: nat
    var grandparentIx: nat
    var seenKey: bool
    var overlappedBytes: nat

    ghost function State(): Overlap
      reads this
    {
      Overlap(grandparentIx, seenKey, overlappedBytes)
    }

    constructor (cmp: Cmp, grandparents: Option<seq<Grandparent>>, maxFileSize: nat)
      ensures State() == Overlap(0, false, 0)
      ensures this.cmp == cmp && this.grandparents == grandparents && this.maxFileSize == maxFileSize
    {
      this.cmp, this.grandparents, this.maxFileSize := cmp, grandparents, maxFileSize;
      grandparentIx, seenKey, overlappedBytes := 0, false, 0;
    }

    method ShouldStopBefore(k: Entry) returns (r: bool)
      modifies this
      ensures (State(), r) == StopStep(cmp, grandparents, maxFileSize, old(State()), k)
      ensures grandparents.None? ==> !r
    {
      if grandparents.None? {
        seenKey := true;
        return false;
      }
      var gs := grandparents.value;
      while grandparentIx < |gs| && Before(cmp, gs[grandparentIx].largest, k)
        invariant Passing(cmp, gs, State(), k) == Passing(cmp, gs, old(State()), k)
        decreases |gs| - grandparentIx
      {
        if seenKey {
          overlappedBytes := overlappedBytes + gs[grandparentIx].size;
        }
        grandparentIx := grandparentIx + 1;
      }
      seenKey := true;
      if overlappedBytes > 10 * maxFileSize {
        overlappedBytes := 0;
        r := true;
      } else {
        r := false;
      }
    }
  }

  /** Asking the tracker before each key of the input gives the answers of `StopsBefore`. */
  method AskAll(cmp: Cmp, gs: Option<seq<Grandparent>>, max: nat, es: seq<Entry>) returns (stops: seq<bool>)
    ensures |stops| == |es| && forall i :: 0 <= i < |es| ==> stops[i] == StopsBefore(cmp, gs, max, es, i)
  {
    hide Passing, StopStep;
    var tracker := new StopTracker(cmp, gs, max);
    stops := [];
    for i := 0 to |es|
      invariant fresh(tracker) && tracker.cmp == cmp && tracker.grandparents == gs && tracker.maxFileSize == max
      invariant tracker.State() == OverlapAt(cmp, gs, max, es, i)
      invariant |stops| == i && forall j :: 0 <= j < i ==> stops[j] == StopsBefore(cmp, gs, max, es, j)
    {
      var r := tracker.ShouldStopBefore(es[i]);
      stops := stops + [r];
    }
  }

  /**
    A deletion that is dropped, then a key behind a file two levels down of more than ten times the
    maximum file size: the compaction is to finish an output, and none is open.
   */
  method StopPanics(cmp: Cmp) returns (r: Outcome)
    requires TotalOrder(cmp) && cmp([1], [2]) == Less && cmp([2], [3]) == Less
    ensures r == Panicked
  {
    var es := [Entry([1], 2, Deletion, []), Entry([3], 3, Value, [9])];
    var below := Entry([2], 1, Value, [8]);
    var deeper := new DeeperLevels(cmp, [[TableFile(below, below, [below])]]);
    var gs := Some([Grandparent(below, 11)]);
    var stops := (i: nat) => StopsBefore(cmp, gs, 1, es, i);
    var full: seq<Entry> -> bool := _ => false;
    ghost var base := k => IsBaseLevel(deeper.cmp, deeper.levels, k);
    assert Sorted(cmp, es);
    StopsAtSecond(cmp, es, gs.value);
    assert stops(1);
    DropsFirst(es, base, full);
    r := DoCompactionWork(es, 3, deeper, stops, full);
    assert StopsWithNoneOpen(es, 3, base, full, stops, 1);
  }

  lemma StopsAtSecond(cmp: Cmp, es: seq<Entry>, gs: seq<Grandparent>)
    requires |es| == 2 && |gs| == 1 && gs[0].size == 11
    requires !Before(cmp, gs[0].largest, es[0]) && Before(cmp, gs[0].largest, es[1])
    ensures StopsBefore(cmp, Some(gs), 1, es, 1)
  {
    assert OverlapAt(cmp, Some(gs), 1, es, 0) == Overlap(0, false, 0);
    assert Passing(cmp, gs, Overlap(0, false, 0), es[0]) == Overlap(0, false, 0);
    assert OverlapAt(cmp, Some(gs), 1, es, 1) == Overlap(0, true, 0);
    assert Passing(cmp, gs, Overlap(1, true, 11), es[1]) == Overlap(1, true, 11);
  }

  lemma DropsFirst(es: seq<Entry>, base: bytes -> bool, full: seq<Entry> -> bool)
    requires |es| > 0 && es[0].kind == Deletion && es[0].sn == 2 && base(es[0].ukey)
    ensures OpenFile(es, 3, base, full, 1) == []
  {
    assert Dropped(es, 0, 3, base);
  }
}
