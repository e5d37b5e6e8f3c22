/** Builds a block from entries given in ascending key order. */
module BlockBuilding {
  import opened Order
  import opened Codec
  import opened BlockFormat

  ghost predicate Ascending(cmp: Cmp, es: seq<Pair>) {
    forall i, j {:trigger cmp(es[i].0, es[j].0)} :: 0 <= i < j < |es| ==> cmp(es[i].0, es[j].0) == Less
  }

  /** An entry that is not a restart shares as much of its key as it has in common with the one before. */
  ghost predicate FullyShared(l: Layout, i: nat)
    requires Sized(l) && i < |l.es|
  {
    i in l.rs ||
    (0 < i && l.shared[i] <= |l.es[i - 1].0|
     && (l.shared[i] == |l.es[i].0| || l.shared[i] == |l.es[i - 1].0|
         || l.es[i].0[l.shared[i]] != l.es[i - 1].0[l.shared[i]]))
  }

  /** Every `interval`-th entry is a restart, and the others are compressed as far as possible. */
  ghost predicate Regular(l: Layout, interval: nat) {
    && WellFormed(l)
    && (forall j :: 0 < j < |l.rs| ==> l.rs[j] == l.rs[j - 1] + interval)
    && (forall i :: 0 <= i < |l.es| ==> FullyShared(l, i))
    && l.rs[|l.rs| - 1] <= |l.es| <= l.rs[|l.rs| - 1] + interval
  }

  /** The layout with one more entry. */
  ghost function Extend(l: Layout, e: Pair, shared: nat, restart: bool): Layout {
    Layout(l.es + [e], l.shared + [shared], if restart then l.rs + [|l.es|] else l.rs)
  }

  ghost function LastKey(l: Layout): bytes {
    if l.es == [] then [] else l.es[|l.es| - 1].0
  }

  lemma {:induction false} ExtendKeepsBody(l: Layout, e: Pair, shared: nat, restart: bool, i: nat)
    requires Sized(l) && i <= |l.es| && shared <= |e.0|
    ensures Sized(Extend(l, e, shared, restart)) && Body(Extend(l, e, shared, restart), i) == Body(l, i)
  {
    if i > 0 {
      ExtendKeepsBody(l, e, shared, restart, i - 1);
      assert EntryBytes(Extend(l, e, shared, restart), i - 1) == EntryBytes(l, i - 1);
    }
  }

  /** Sharing what two keys have in common gives a well-formed layout again. */
  lemma ExtendWellFormed(l: Layout, e: Pair, shared: nat, restart: bool)
    requires WellFormed(l) && e.0 != []
    requires shared <= |e.0| && shared <= |LastKey(l)| && e.0[..shared] == LastKey(l)[..shared]
    requires restart ==> shared == 0 && l.es != []
    ensures WellFormed(Extend(l, e, shared, restart))
  {
    var l' := Extend(l, e, shared, restart);
    forall i | 0 <= i < |l'.es| ensures Linked(l', i) {
      if i < |l.es| {
        assert Linked(l, i);
      }
    }
    assert forall j :: 0 <= j < |l.rs| ==> l'.rs[j] == l.rs[j];
  }

  lemma ExtendRegular(l: Layout, e: Pair, shared: nat, restart: bool, interval: nat)
    requires Regular(l, interval) && e.0 != [] && interval > 0
    requires shared <= |e.0| && shared <= |LastKey(l)| && e.0[..shared] == LastKey(l)[..shared]
    requires restart <==> |l.es| == l.rs[|l.rs| - 1] + interval
    requires restart ==> shared == 0 && l.es != []
    requires !restart ==> shared == |e.0| || shared == |LastKey(l)| || e.0[shared] != LastKey(l)[shared]
    ensures Regular(Extend(l, e, shared, restart), interval)
  {
    ExtendWellFormed(l, e, shared, restart);
    var l' := Extend(l, e, shared, restart);
    forall i | 0 <= i < |l'.es| ensures FullyShared(l', i) {
      if i < |l.es| {
        StaysShared(l, e, shared, restart, i);
      } else {
        LastShared(l, e, shared, restart);
      }
    }
    hide WellFormed, FullyShared;
  }

  lemma StaysShared(l: Layout, e: Pair, shared: nat, restart: bool, i: nat)
    requires WellFormed(l) && WellFormed(Extend(l, e, shared, restart)) && i < |l.es| && FullyShared(l, i)
    ensures FullyShared(Extend(l, e, shared, restart), i)
  {
    if i in l.rs {
      assert i in Extend(l, e, shared, restart).rs;
    }
  }

  lemma LastShared(l: Layout, e: Pair, shared: nat, restart: bool)
    requires WellFormed(l) && WellFormed(Extend(l, e, shared, restart)) && shared <= |e.0| && shared <= |LastKey(l)|
    requires !restart ==> shared == |e.0| || shared == |LastKey(l)| || e.0[shared] != LastKey(l)[shared]
    ensures FullyShared(Extend(l, e, shared, restart), |l.es|)
  {
    var l' := Extend(l, e, shared, restart);
    if restart {
      assert l'.rs[|l.rs|] == |l.es|;
    } else if l.es == [] {
      assert l'.rs[0] == 0;
    }
  }

  lemma ExtendAscending(cmp: Cmp, es: seq<Pair>, e: Pair)
    requires TotalOrder(cmp) && Ascending(cmp, es) && (es != [] ==> cmp(es[|es| - 1].0, e.0) == Less)
    ensures Ascending(cmp, es + [e])
  {
    var es' := es + [e];
    forall i, j | 0 <= i < j < |es'| ensures cmp(es'[i].0, es'[j].0) == Less {
      if j < |es| {
        assert cmp(es[i].0, es[j].0) == Less;
      } else if i < |es| - 1 {
        assert cmp(es[i].0, es[|es| - 1].0) == Less;
      }
    }
  }

  lemma Regroup5(p: bytes, a: bytes, b: bytes, c: bytes, k: bytes, v: bytes)
    ensures p + (a + b + c + k + v) == p + a + b + c + k + v
  {
    Regroup(p, a + b + c + k, v);
    Regroup(p, a + b + c, k);
    Regroup(p, a + b, c);
    Regroup(p, a, b);
  }

  /** The bytes of the added entry. */
  lemma ExtendEntry(l: Layout, e: Pair, shared: nat, restart: bool)
    requires Sized(l) && shared <= |e.0|
    ensures var l' := Extend(l, e, shared, restart);
      && Sized(l') && |l'.es| == |l.es| + 1
      && Body(l', |l'.es|) == Body(l', |l.es|) + EntryBytes(l', |l.es|)
      && EntryBytes(l', |l.es|)
         == EncodeVar(shared) + EncodeVar(|e.0| - shared) + EncodeVar(|e.1|) + e.0[shared..] + e.1
  {
    hide EncodeVar;
  }

  lemma ExtendBody(l: Layout, e: Pair, shared: nat, restart: bool)
    requires Sized(l) && shared <= |e.0|
    ensures var l' := Extend(l, e, shared, restart);
      Sized(l') && Body(l', |l'.es|)
          == Body(l, |l.es|) + EncodeVar(shared) + EncodeVar(|e.0| - shared) + EncodeVar(|e.1|) + e.0[shared..] + e.1
  {
    ExtendKeepsBody(l, e, shared, restart, |l.es|);
    ExtendEntry(l, e, shared, restart);
    hide Body, EntryBytes, EncodeVar, Sized, Extend;
    Regroup5(Body(l, |l.es|), EncodeVar(shared), EncodeVar(|e.0| - shared), EncodeVar(|e.1|), e.0[shared..], e.1);
  }

  lemma ExtendRestarts(l: Layout, e: Pair, shared: nat, restart: bool)
    requires WellFormed(l) && shared <= |e.0| && WellFormed(Extend(l, e, shared, restart))
    ensures RestartOffsets(Extend(l, e, shared, restart))
         == if restart then RestartOffsets(l) + [|Body(l, |l.es|)|] else RestartOffsets(l)
  {
    var l' := Extend(l, e, shared, restart);
    ExtendKeepsBody(l, e, shared, restart, |l.es|);
    forall j | 0 <= j < |l.rs|
      ensures RestartInRange(l, j) && RestartInRange(l', j) && Off(l', l'.rs[j]) == Off(l, l.rs[j])
    {
      assert RestartInRange(l, j);
      ExtendKeepsBody(l, e, shared, restart, l.rs[j]);
    }
  }

  /**
    The entries added so far are ascending, and the builder knows the last key and its distance from the last
    restart.
   */
  ghost predicate Tracked(cmp: Cmp, interval: nat, l: Layout, lastKey: bytes, restartCounter: nat) {
    && TotalOrder(cmp) && interval > 0 && Regular(l, interval) && Ascending(cmp, l.es)
    && lastKey == LastKey(l) && restartCounter == |l.es| - l.rs[|l.rs| - 1]
  }

  /** The bytes and restart offsets written so far. */
  ghost predicate Stored(l: Layout, buffer: bytes, restarts: seq<nat>) {
    WellFormed(l) && buffer == Body(l, |l.es|) && restarts == RestartOffsets(l)
  }

  /** What `add` puts in front of the last key: nothing at a restart, otherwise all that the keys have in common. */
  ghost predicate Shares(lastKey: bytes, key: bytes, shared: nat, restart: bool) {
    && shared <= |key| && shared <= |lastKey| && key[..shared] == lastKey[..shared]
    && if restart then shared == 0 else shared == |key| || shared == |lastKey| || key[shared] != lastKey[shared]
  }

  lemma AtMostInterval(cmp: Cmp, interval: nat, l: Layout, lastKey: bytes, restartCounter: nat)
    requires Tracked(cmp, interval, l, lastKey, restartCounter)
    ensures restartCounter <= interval
  {
  }

  lemma TracksOn(cmp: Cmp, interval: nat, l: Layout, lastKey: bytes, restartCounter: nat, e: Pair, shared: nat)
    requires Tracked(cmp, interval, l, lastKey, restartCounter)
    requires e.0 != [] && (l.es != [] ==> cmp(lastKey, e.0) == Less)
    requires Shares(lastKey, e.0, shared, restartCounter == interval)
    ensures var restart := restartCounter == interval;
      var l' := Extend(l, e, shared, restart);
      && WellFormed(l')
      && Tracked(cmp, interval, l', lastKey[..shared] + e.0[shared..], if restart then 1 else restartCounter + 1)
  {
    ExtendRegular(l, e, shared, restartCounter == interval, interval);
    ExtendAscending(cmp, l.es, e);
    assert lastKey[..shared] + e.0[shared..] == e.0;
  }

  lemma StoresOn(l: Layout, buffer: bytes, restarts: seq<nat>, e: Pair, shared: nat, restart: bool)
    requires Stored(l, buffer, restarts) && shared <= |e.0| && WellFormed(Extend(l, e, shared, restart))
    ensures Stored(Extend(l, e, shared, restart),
                   buffer + EncodeVar(shared) + EncodeVar(|e.0| - shared) + EncodeVar(|e.1|) + e.0[shared..] + e.1,
                   if restart then restarts + [|buffer|] else restarts)
  {
    ExtendBody(l, e, shared, restart);
    ExtendRestarts(l, e, shared, restart);
  }

  class BlockBuilder {
    const cmp: Cmp
    const interval: nat
    var buffer: bytes
    var restarts: seq<nat>
    var lastKey: bytes
    var restartCounter: nat
    var counter: nat
    ghost var l: Layout

    ghost predicate Valid()
      reads this
    {
      && Tracked(cmp, interval, l, lastKey, restartCounter) && Stored(l, buffer, restarts)
      && counter == |l.es|
    }

    constructor (cmp: Cmp, interval: nat)
      requires TotalOrder(cmp) && interval > 0
      ensures Valid() && l.es == [] && this.cmp == cmp && this.interval == interval
    {
      this.cmp, this.interval := cmp, interval;
      buffer, restarts, lastKey, restartCounter, counter := [], [0], [], 0, 0;
      l := Layout([], [], [0]);
      new;
      assert RestartInRange(l, 0);
      assert RestartOffsets(l) == [0];
    }

    method SizeEstimate() returns (r: nat)
      requires Valid()
      ensures r == |Contents(l)|
    {
      r := |buffer| + 4 * |restarts| + 4;
    }

    /** Length of the longest common prefix of the last key and `key`. */
    method SharedWithLast(key: bytes) returns (shared: nat)
      ensures Shares(lastKey, key, shared, false)
    {
      var smallest := if |lastKey| < |key| then |lastKey| else |key|;
      shared := 0;
      while shared < smallest && lastKey[shared] == key[shared]
        invariant shared <= smallest && key[..shared] == lastKey[..shared]
      {
        shared := shared + 1;
      }
    }

    method Add(key: bytes, val: bytes)
      requires Valid() && key != [] && (counter > 0 ==> cmp(lastKey, key) == Less)
      modifies this
      ensures Valid() && l.es == old(l.es) + [(key, val)]
    {
      hide Tracked, Stored, WellFormed;
      AtMostInterval(cmp, interval, l, lastKey, restartCounter);
      var shared := 0;
      var starts, counted := restarts, restartCounter;
      if restartCounter < interval {
        shared := SharedWithLast(key);
      } else {
        starts, counted := restarts + [|buffer|], 0;
      }
      ghost var restart := restartCounter == interval;
      TracksOn(cmp, interval, l, lastKey, restartCounter, (key, val), shared);
      StoresOn(l, buffer, restarts, (key, val), shared, restart);
      l := Extend(l, (key, val), shared, restart);
      buffer := buffer + EncodeVar(shared) + EncodeVar(|key| - shared) + EncodeVar(|val|) + key[shared..] + val;
      restarts, lastKey, restartCounter := starts, lastKey[..shared] + key[shared..], counted + 1;
      counter := counter + 1;
    }

    method Finish() returns (block: bytes)
      requires Valid()
      modifies this`buffer
      ensures block == Contents(l)
    {
      buffer := WriteAll(buffer, restarts);
      buffer := buffer + EncodeFixed(|restarts|, 4);
      block := buffer;
    }
  }

  /** Appends fixed 32-bit integers to a buffer. */
  method WriteAll(buffer: bytes, ns: seq<nat>) returns (r: bytes)
    ensures r == buffer + EncodeAll(ns)
  {
    r := buffer;
    for i := 0 to |ns|
      invariant r == buffer + EncodeAll(ns[..i])
    {
      assert ns[..i + 1][..i] == ns[..i];
      r := r + EncodeFixed(ns[i], 4);
    }
    assert ns[..|ns|] == ns;
  }
}
