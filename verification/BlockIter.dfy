/** Iterates over a finished block in both directions and seeks in it. */
module BlockIteration {
  import opened Order
  import opened Codec
  import opened BlockFormat
  import opened BlockBuilding

  /** A key that shares `n` bytes with entry `i` is enough to rebuild the key of entry `i`. */
  ghost predicate Supplies(l: Layout, key: bytes, i: nat)
    requires WellFormed(l)
  {
    i < |l.es| ==> l.shared[i] <= |key| && key[..l.shared[i]] == l.es[i].0[..l.shared[i]]
  }

  lemma PreviousSupplies(l: Layout, i: nat)
    requires WellFormed(l) && i < |l.es|
    ensures Supplies(l, l.es[i].0, i + 1)
  {
    if i + 1 < |l.es| {
      assert Linked(l, i + 1);
    }
  }

  lemma FirstRestart(l: Layout)
    requires Sized(l) && WellFormed(l)
    ensures l.rs != [] && l.rs[0] == 0 && Off(l, 0) == 0
  {
  }

  lemma LastRestart(l: Layout)
    requires WellFormed(l) && l.es != []
    ensures l.rs != [] && l.rs[|l.rs| - 1] < |l.es|
  {
  }

  lemma RestartNeedsNothing(l: Layout, j: nat, key: bytes)
    requires WellFormed(l) && j < |l.rs|
    ensures RestartInRange(l, j) && Supplies(l, key, l.rs[j])
  {
  }

  lemma Assemble(l: Layout, i: nat, key: bytes)
    requires WellFormed(l) && i < |l.es| && Supplies(l, key, i)
    ensures key[..l.shared[i]] + l.es[i].0[l.shared[i]..] == l.es[i].0
  {
  }

  /** Reads the three varints in front of a stored entry; `n` is their total length. */
  method ParseHeader(block: bytes, offset: nat, ghost x: nat, ghost y: nat, ghost z: nat, ghost next: nat,
                     ghost shared: nat, ghost k: bytes, ghost v: bytes)
    returns (a: nat, b: nat, c: nat, n: nat)
    requires StoredAt(block, offset, x, y, z, next, shared, k, v)
    ensures a == shared && b == |k| && c == |v| && offset + n + b + c == next <= |block|
    ensures block[offset + n..offset + n + b] == k
  {
    hide DecodeVar;
    var first := DecodeVar(block[offset..]);
    var second := DecodeVar(block[offset + first.1..]);
    var third := DecodeVar(block[offset + first.1 + second.1..]);
    return first.0, second.0, third.0, first.1 + second.1 + third.1;
  }

  class BlockIter {
    const cmp: Cmp
    const block: bytes
    const restartsOff: nat
    ghost const l: Layout

    /** Start of the next entry to be parsed. */
    var offset: nat
    var currentEntryOffset: nat
    var currentRestartIx: nat
    var key: bytes
    var valOffset: nat

    /** Index of the current entry, -1 if there is none. */
    ghost var cur: int
    /** Index of the entry that currentEntryOffset points to. */
    ghost var mark: nat

    ghost predicate Encodes() {
      && Sized(l) && WellFormed(l) && block == Contents(l) && |block| < U32_LIMIT
      && restartsOff == Off(l, |l.es|) <= |block|
    }

    /** The next entry to be parsed is entry `i`, and it can be rebuilt. */
    ghost predicate Poised(i: nat)
      requires Encodes()
      reads this
    {
      && i <= |l.es| && offset == Off(l, i) && Supplies(l, key, i)
      && currentRestartIx < |l.rs| && l.rs[currentRestartIx] <= i
    }

    ghost predicate Marked()
      requires Encodes()
      reads this
    {
      (mark == 0 || mark < |l.es|) && currentEntryOffset == Off(l, mark)
    }

    /** The iterator shows entry `i`. */
    ghost predicate At(i: nat)
      requires Encodes()
      reads this
    {
      && i < |l.es| && mark == i && key == l.es[i].0
      && offset == Off(l, i + 1) && valOffset + |l.es[i].1| == offset
      && currentRestartIx < |l.rs| && l.rs[currentRestartIx] <= i
      && (currentRestartIx + 1 < |l.rs| ==> i <= l.rs[currentRestartIx + 1])
    }

    ghost predicate Valid()
      reads this
    {
      && Encodes() && Marked() && -1 <= cur
      && if cur < 0 then offset == 0 && valOffset == 0 && currentRestartIx == 0 && key == [] else At(cur)
    }

    constructor (cmp: Cmp, block: bytes, ghost l: Layout)
      requires WellFormed(l) && block == Contents(l) && |block| < U32_LIMIT
      ensures Valid() && cur == -1 && mark == 0 && this.cmp == cmp && this.l == l
    {
      ReadRestartCount(l);
      var restarts := DecodeFixed(block[|block| - 4..]);
      this.cmp, this.block, this.l := cmp, block, l;
      restartsOff := |block| - 4 - 4 * restarts;
      offset, currentEntryOffset, currentRestartIx, key, valOffset := 0, 0, 0, [], 0;
      cur, mark := -1, 0;
    }

    method NumberRestarts() returns (r: nat)
      requires Encodes()
      ensures r == |l.rs|
    {
      ReadRestartCount(l);
      r := DecodeFixed(block[|block| - 4..]);
    }

    method GetRestartPoint(ix: nat) returns (r: nat)
      requires Encodes() && ix < |l.rs|
      ensures RestartInRange(l, ix) && r == Off(l, l.rs[ix])
    {
      ReadRestart(l, ix);
      var restart := restartsOff + 4 * ix;
      r := DecodeFixed(block[restart..restart + 4]);
    }

    /** A valid iterator is past the header of an entry; an invalid one holds no key. */
    method IsValid() returns (r: bool)
      requires Valid()
      ensures r <==> cur >= 0
    {
      if cur >= 0 {
        OffStep(l, cur);
        OffMonotone(l, cur + 1, |l.es|);
        assert Linked(l, cur);
      }
      r := key != [] && valOffset > 0 && valOffset <= restartsOff;
    }

    method ParseEntryAndAdvance(ghost i: nat) returns (shared: nat, nonShared: nat, valsize: nat, headLen: nat)
      requires Encodes() && i < |l.es| && offset == Off(l, i)
      modifies this`offset, this`valOffset
      ensures shared == l.shared[i] && nonShared == |l.es[i].0| - shared && valsize == |l.es[i].1|
      ensures offset == Off(l, i + 1) && valOffset + valsize == offset
      ensures var at := Off(l, i) + headLen;
        at + nonShared <= |block| && block[at..at + nonShared] == l.es[i].0[shared..]
    {
      hide Body, WellFormed, Contents, StoredAt;
      ghost var x, y, z := ReadEntry(l, i);
      var a, b, c, n :=
        ParseHeader(block, offset, x, y, z, Off(l, i + 1), l.shared[i], l.es[i].0[l.shared[i]..], l.es[i].1);
      valOffset := offset + n + b;
      offset := valOffset + c;
      return a, b, c, n;
    }

    method Reset()
      requires Encodes() && Marked()
      modifies this
      ensures Valid() && cur == -1 && mark == old(mark)
    {
      offset, valOffset, currentRestartIx, key := 0, 0, 0, [];
      cur := -1;
    }

    /** Moves the restart index up to the last restart before the current entry. */
    method FollowRestarts(ghost i: nat)
      requires Encodes() && i < |l.es| && currentEntryOffset == Off(l, i)
      requires currentRestartIx < |l.rs| && l.rs[currentRestartIx] <= i
      modifies this`currentRestartIx
      ensures old(currentRestartIx) <= currentRestartIx < |l.rs| && l.rs[currentRestartIx] <= i
      ensures currentRestartIx > old(currentRestartIx) ==> l.rs[currentRestartIx] < i
      ensures currentRestartIx + 1 < |l.rs| ==> i <= l.rs[currentRestartIx + 1]
    {
      hide Body, Contents;
      var numRestarts := NumberRestarts();
      while currentRestartIx + 1 < numRestarts
        invariant old(currentRestartIx) <= currentRestartIx < |l.rs| && l.rs[currentRestartIx] <= i
        invariant currentRestartIx > old(currentRestartIx) ==> l.rs[currentRestartIx] < i
        decreases numRestarts - currentRestartIx
      {
        var next := GetRestartPoint(currentRestartIx + 1);
        OffInjective(l, l.rs[currentRestartIx + 1], i);
        if next >= currentEntryOffset {
          break;
        }
        currentRestartIx := currentRestartIx + 1;
      }
    }

    /** Parses the entry the iterator is poised at, or becomes invalid at the end. */
    method AdvanceFrom(ghost i: nat) returns (r: bool)
      requires Encodes() && Marked() && Poised(i)
      modifies this
      ensures Valid() && r == (i < |l.es|)
      ensures if r then cur == i else cur == -1 && mark == old(mark)
    {
      hide Body, WellFormed, Sized, Contents;
      OffMonotone(l, i, |l.es|);
      if offset >= restartsOff {
        Reset();
        return false;
      }
      currentEntryOffset := offset;
      mark := i;
      var shared, nonShared, _, headLen := ParseEntryAndAdvance(i);
      Assemble(l, i, key);
      key := key[..shared] + block[currentEntryOffset + headLen..currentEntryOffset + headLen + nonShared];
      FollowRestarts(i);
      cur := i;
      r := true;
    }

    method Advance() returns (r: bool)
      requires Valid()
      modifies this
      ensures Valid() && r == (old(cur) + 1 < |l.es|)
      ensures if r then cur == old(cur) + 1 else cur == -1 && mark == old(mark)
    {
      PoisedAfterCurrent();
      r := AdvanceFrom(cur + 1);
    }

    /** A valid iterator is poised at the entry after the current one, an invalid one at the first entry. */
    lemma PoisedAfterCurrent()
      requires Valid()
      ensures Poised(cur + 1)
    {
      hide Contents, Body, WellFormed, Sized;
      FirstRestart(l);
      if cur >= 0 {
        PreviousSupplies(l, cur);
      } else {
        RestartNeedsNothing(l, 0, key);
      }
    }

    method Current() returns (r: Option<Pair>)
      requires Valid()
      ensures r == if cur < 0 then None else Some(l.es[cur])
    {
      hide Body, WellFormed, Contents, Off;
      var valid := IsValid();
      if !valid {
        return None;
      }
      ReadValue(l, cur);
      r := Some((key, block[valOffset..offset]));
    }

    /** Jumps to the entry of restart `ix`. */
    method SeekToRestartPoint(ix: nat)
      requires Encodes() && ix < |l.rs| && l.rs[ix] < |l.es|
      modifies this
      ensures Valid() && cur == l.rs[ix]
    {
      hide Body, WellFormed, Contents, Supplies, Sized;
      NextRestart(l, ix);
      var off := GetRestartPoint(ix);
      ghost var i := l.rs[ix];
      RestartNeedsNothing(l, ix, key);
      offset, currentEntryOffset, currentRestartIx := off, off, ix;
      mark := i;
      var shared, nonShared, _, headLen := ParseEntryAndAdvance(i);
      Assemble(l, i, key);
      key := key[..shared] + block[off + headLen..off + headLen + nonShared];
      cur := i;
    }

    method SeekToLast()
      requires Valid() && l.es != []
      modifies this
      ensures Valid() && cur == |l.es| - 1
    {
      hide Body, WellFormed, Sized, Contents;
      var numRestarts := NumberRestarts();
      LastRestart(l);
      SeekToRestartPoint(numRestarts - 1);
      while offset < restartsOff
        invariant Valid() && 0 <= cur < |l.es|
        decreases |l.es| - cur
      {
        OffInjective(l, cur + 1, |l.es|);
        var _ := Advance();
      }
      OffInjective(l, cur + 1, |l.es|);
    }

    /** Steps back the restart index to the last restart before entry `m`; it never runs out of restarts. */
    method RestartBefore(ghost m: nat)
      requires Encodes() && 0 < m < |l.es| && currentEntryOffset == Off(l, m) && currentRestartIx < |l.rs|
      modifies this`currentRestartIx
      ensures currentRestartIx < |l.rs| && l.rs[currentRestartIx] < m
    {
      hide Body, Contents;
      while true
        invariant currentRestartIx < |l.rs|
        decreases currentRestartIx
      {
        var point := GetRestartPoint(currentRestartIx);
        OffInjective(l, l.rs[currentRestartIx], m);
        if point < currentEntryOffset {
          break;
        }
        if currentRestartIx == 0 {
          assert false;
        }
        currentRestartIx := currentRestartIx - 1;
      }
    }

    method Prev() returns (r: bool)
      requires Valid()
      modifies this
      ensures Valid() && r == (old(mark) > 0)
      ensures if r then cur == old(mark) - 1 else cur == -1
    {
      hide Body, WellFormed, Sized, Contents;
      FirstRestart(l);
      ghost var m := mark;
      var origOffset := currentEntryOffset;
      OffInjective(l, 0, m);
      if origOffset == 0 {
        Reset();
        return false;
      }
      RestartBefore(m);
      offset := GetRestartPoint(currentRestartIx);
      ghost var i: nat := l.rs[currentRestartIx];
      RestartNeedsNothing(l, currentRestartIx, key);
      r := AdvanceFrom(i);
      while offset < origOffset
        invariant Valid() && r && i <= cur < m && origOffset == Off(l, m)
        decreases m - cur
      {
        OffInjective(l, cur + 1, m);
        r := Advance();
      }
      OffInjective(l, cur + 1, m);
    }

    /** The entry at the restart after `j`, if there is one, is not below a key. */
    ghost predicate NextNotBelow(j: nat, to: bytes) {
      j + 1 < |l.rs| ==> l.rs[j + 1] < |l.es| && cmp(l.es[l.rs[j + 1]].0, to) != Less
    }

    /** The last restart below a key: the first one if there is none below it. */
    method SearchRestarts(to: bytes) returns (left: nat)
      requires Valid() && TotalOrder(cmp) && Ascending(cmp, l.es)
      modifies this
      ensures Encodes() && Marked() && left < |l.rs|
      ensures left > 0 ==> l.rs[left] < |l.es| && cmp(l.es[l.rs[left]].0, to) == Less
      ensures NextNotBelow(left, to)
    {
      hide Body, Contents, Supplies, Linked, TotalOrder, Ascending;
      var numRestarts := NumberRestarts();
      left := 0;
      var right := if numRestarts == 0 then 0 else numRestarts - 1;
      while left < right
        invariant Valid() && left <= right < |l.rs|
        invariant left > 0 ==> l.rs[left] < |l.es| && cmp(l.es[l.rs[left]].0, to) == Less
        invariant NextNotBelow(right, to)
        decreases right - left
      {
        var middle := (left + right + 1) / 2;
        SeekToRestartPoint(middle);
        if cmp(key, to) == Less {
          left := middle;
        } else {
          right := middle - 1;
        }
      }
    }

    ghost predicate AllBelow(n: nat, to: bytes) {
      n <= |l.es| && forall i :: 0 <= i < n ==> cmp(l.es[i].0, to) == Less
    }

    lemma BelowRestart(i: nat, to: bytes)
      requires TotalOrder(cmp) && Ascending(cmp, l.es) && i < |l.es| && cmp(l.es[i].0, to) == Less
      ensures AllBelow(i, to)
    {
      forall j | 0 <= j < i ensures cmp(l.es[j].0, to) == Less {
        assert cmp(l.es[j].0, l.es[i].0) == Less;
      }
    }

    /** Lands on the first entry that is not below `to`; becomes invalid if all are. */
    method Seek(to: bytes)
      requires Valid() && TotalOrder(cmp) && Ascending(cmp, l.es)
      modifies this
      ensures Valid() && AllBelow(if cur >= 0 then cur else |l.es|, to)
      ensures cur >= 0 ==> cmp(l.es[cur].0, to) != Less
    {
      hide Body, WellFormed, Sized, Contents, TotalOrder, Ascending, Supplies, RestartInRange;
      FirstRestart(l);
      Reset();
      var left := SearchRestarts(to);
      currentRestartIx := left;
      offset := GetRestartPoint(left);
      ghost var i: nat := l.rs[left];
      if left > 0 { BelowRestart(i, to); }
      RestartNeedsNothing(l, left, key);
      var more := AdvanceFrom(i);
      while more
        invariant Valid() && (more ==> cur >= 0 && AllBelow(cur, to)) && (!more ==> cur == -1 && AllBelow(|l.es|, to))
        decreases if more then |l.es| - cur else 0
      {
        if cmp(key, to) != Less {
          return;
        }
        more := Advance();
      }
    }
  }

  /** Reading a block from the start gives back every entry it was built from. */
  method ReadAll(it: BlockIter) returns (all: seq<Pair>)
    requires it.Valid() && it.cur == -1
    modifies it
    ensures all == it.l.es && it.Valid() && it.cur == -1
  {
    hide Body, WellFormed, Sized, Contents;
    all := [];
    var more := it.Advance();
    while more
      invariant it.Valid() && (more ==> it.cur == |all|) && (!more ==> |all| == |it.l.es| && it.cur == -1)
      invariant all == it.l.es[..|all|]
      decreases |it.l.es| - |all|, more
    {
      var e := it.Current();
      all := all + [e.value];
      more := it.Advance();
    }
  }

  /** Building a block and reading it back: the entries come back unchanged, whatever the restart interval. */
  method BuildAndRead(cmp: Cmp, interval: nat, es: seq<Pair>) returns (block: bytes, all: seq<Pair>)
    requires TotalOrder(cmp) && interval > 0 && Ascending(cmp, es)
    requires forall i :: 0 <= i < |es| ==> es[i].0 != []
    ensures |block| < U32_LIMIT ==> all == es
  {
    hide TotalOrder, Tracked, Stored;
    var b := new BlockBuilder(cmp, interval);
    for i := 0 to |es|
      invariant b.Valid() && b.cmp == cmp && b.l.es == es[..i] && fresh(b)
    {
      LastOf(b);
      assert i > 0 ==> cmp(es[i - 1].0, es[i].0) == Less;
      b.Add(es[i].0, es[i].1);
    }
    LastOf(b);
    block := b.Finish();
    all := [];
    if |block| < U32_LIMIT {
      var it := new BlockIter(cmp, block, b.l);
      all := ReadAll(it);
    }
  }

  lemma LastOf(b: BlockBuilder)
    requires b.Valid()
    ensures b.counter == |b.l.es| && WellFormed(b.l) && (b.counter > 0 ==> b.lastKey == b.l.es[b.counter - 1].0)
  {
  }
}
