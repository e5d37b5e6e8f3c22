/**
  The list of live snapshots, and which of them a compaction protects. A compaction keeps what
  readers at or above its smallest sequence number can see; that number comes from the list's
  oldest(), which takes the minimum over the handles of the live snapshots, not over their
  sequence numbers.
 */
module Snapshots {
  import opened Order
  import opened Versions
  import opened Compaction

  /** `r` is the least handle of a live snapshot, or 0 if no handle below the maximum is live. */
  ghost predicate IsOldest(live: map<nat, nat>, r: nat) {
    if exists h :: h in live && h < MAX_SEQUENCE_NUMBER
    then r in live && r < MAX_SEQUENCE_NUMBER && forall h :: h in live ==> r <= h
    else r == 0
  }

  class SnapshotList {
    /** Live handles and the sequence numbers they were taken at. */
    var live: map<nat, nat>
    var newest: nat
    var oldest: nat

    ghost predicate Valid()
      reads this
    {
      (oldest == 0 <==> newest == 0) && forall h :: h in live ==> 1 <= h <= newest
    }

    constructor ()
      ensures Valid() && live == map[] && newest == 0
    {
      live, newest, oldest := map[], 0, 0;
    }

    method NewSnapshot(s: nat) returns (h: nat)
      requires Valid()
      modifies this
      ensures Valid() && h !in old(live) && live == old(live)[h := s] && h == old(newest) + 1 == newest
      ensures forall g :: g in old(live) ==> g < h
    {
      newest := newest + 1;
      live := live[newest := s];
      if oldest == 0 {
        oldest := newest;
      }
      h := newest;
    }

    method Delete(h: nat)
      requires Valid()
      modifies this
      ensures Valid() && live == old(live) - {h} && newest == old(newest)
    {
      live := live - {h};
    }

    /** Never true again once a snapshot has been taken. */
    method Empty() returns (r: bool)
      requires Valid()
      ensures r <==> newest == 0
      ensures r ==> live == map[]
    {
      r := oldest == 0;
    }

    method Oldest() returns (r: nat)
      requires Valid()
      ensures IsOldest(live, r)
    {
      r := MAX_SEQUENCE_NUMBER;
      var rest := live.Keys;
      while rest != {}
        invariant rest <= live.Keys
        invariant r == MAX_SEQUENCE_NUMBER || (r in live && r < MAX_SEQUENCE_NUMBER)
        invariant forall h :: h in live && h !in rest ==> r <= h
        decreases |rest|
      {
        var h :| h in rest;
        if h < r {
          r := h;
        }
        rest := rest - {h};
      }
      if r == MAX_SEQUENCE_NUMBER {
        r := 0;
      }
    }

    /** The smallest sequence number a compaction works with. */
    method SmallestForCompaction(lastSeq: nat) returns (r: nat)
      requires Valid()
      ensures if newest == 0 then r == lastSeq else IsOldest(live, r)
    {
      var none := Empty();
      if none {
        r := lastSeq;
      } else {
        r := Oldest();
      }
    }
  }

  /** No sequence number in use is above `last`. */
  ghost predicate UpTo(last: nat, es: seq<Entry>, outside: set<Entry>) {
    (forall e :: e in es ==> e.sn <= last) && (forall e :: e in outside ==> e.sn <= last)
  }

  /** What a reader at `s` finds is not changed by compacting `es`, with `outside` left as it is. */
  ghost predicate Unchanged(es: seq<Entry>, smallest: nat, base: bytes -> bool, outside: set<Entry>, s: nat) {
    SameReads(outside + Readable(es), outside + Output(es, smallest, base), s)
  }

  /**
    No compaction with this smallest sequence number, in a database whose last sequence number is
    `last`, changes what a reader at `s` reads; compactions that expose a put change what every
    reader at `smallest` reads and are not counted.
   */
  ghost predicate Protects(cmp: Cmp, smallest: nat, last: nat, s: nat) {
    forall es, base, outside ::
      Sorted(cmp, es) && !Exposes(es, smallest, base, outside) && UpTo(last, es, outside) ==>
        Unchanged(es, smallest, base, outside, s)
  }

  /** Of two puts, a smallest sequence number at or above the newer keeps that one only. */
  lemma KeepsNewer(newer: Entry, older: Entry, smallest: nat, base: bytes -> bool)
    requires newer.ukey == older.ukey && newer.kind == Value && 0 < newer.sn <= smallest < MAX_SEQUENCE_NUMBER
    ensures Output([newer, older], smallest, base) == {newer}
  {
    var es := [newer, older];
    assert Dropped(es, 1, smallest, base) && !Dropped(es, 0, smallest, base);
    assert Kept(es, smallest, base, 1) == [newer] && Kept(es, smallest, base, 2) == [newer];
  }

  /**
    Two versions of a key, the newer one just after `s`: a smallest sequence number above `s` drops the one
    `s` reads.
   */
  lemma OverwrittenVersionLost(cmp: Cmp, smallest: nat, last: nat, s: nat)
    requires TotalOrder(cmp) && 1 <= s < smallest < MAX_SEQUENCE_NUMBER && s < last
    ensures !Protects(cmp, smallest, last, s)
  {
    var newer, older := Entry([1], s + 1, Value, [2]), Entry([1], s, Value, [3]);
    var es, base := [newer, older], (_: bytes) => false;
    KeepsNewer(newer, older, smallest, base);
    hide Output, Dropped, Kept;
    assert Sorted(cmp, es) && UpTo(last, es, {}) && !Exposes(es, smallest, base, {});
    assert Newest({} + Readable(es), [1], s, older);
    assert !Unchanged(es, smallest, base, {}, s) by {
      assert Reads({} + Readable(es), [1], s, Some([3]));
      assert !Reads({} + {newer}, [1], s, Some([3]));
    }
  }

  lemma NothingToReadAtZero(es: seq<Entry>, smallest: nat, base: bytes -> bool, outside: set<Entry>)
    ensures Unchanged(es, smallest, base, outside, 0)
  {
    OutputIs(es, smallest, base);
    var before, after := outside + Readable(es), outside + Output(es, smallest, base);
    forall k, e ensures Newest(before, k, 0, e) <==> Newest(after, k, 0, e) {
    }
  }

  /** Readers at or above every sequence number in use read alike. */
  lemma ReadsLast(store: set<Entry>, last: nat, s: nat, t: nat)
    requires last <= s && last <= t && forall e :: e in store ==> e.sn <= last
    ensures forall k, r :: Reads(store, k, s, r) <==> Reads(store, k, t, r)
  {
    assert forall k, e :: Newest(store, k, s, e) <==> Newest(store, k, t, e);
  }

  /** A reader who sees everything in use notices a compaction exactly if it exposes a put. */
  lemma LatestProtected(cmp: Cmp, es: seq<Entry>, smallest: nat, base: bytes -> bool, outside: set<Entry>,
                        last: nat, s: nat)
    requires TotalOrder(cmp) && Sorted(cmp, es) && smallest < MAX_SEQUENCE_NUMBER && last <= s < smallest
    requires UpTo(last, es, outside)
    ensures Unchanged(es, smallest, base, outside, s) <==> !Exposes(es, smallest, base, outside)
  {
    OutputIs(es, smallest, base);
    var before, after := outside + Readable(es), outside + Output(es, smallest, base);
    assert forall e :: e in after ==> e.sn <= last;
    ReadsLast(before, last, s, smallest);
    ReadsLast(after, last, s, smallest);
    hide Reads, Dropped, Kept;
    if Exposes(es, smallest, base, outside) {
      var i: nat, p :| ExposesPut(es, smallest, base, outside, i, p);
      HiddenPutRead(cmp, es, smallest, base, outside, i, p);
      NoneIsNotSome(before, p.ukey, smallest, p.val);
    } else {
      NothingExposed(cmp, es, smallest, base, outside, smallest);
    }
  }

  lemma NoneIsNotSome(store: set<Entry>, k: bytes, s: nat, v: bytes)
    requires Reads(store, k, s, None)
    ensures !Reads(store, k, s, Some(v))
  {
  }

  /**
    A compaction protects exactly the snapshots at or above its smallest sequence number, the empty
    one at 0, and those that see everything written so far.
   */
  lemma ProtectedSnapshots(cmp: Cmp, smallest: nat, last: nat, s: nat)
    requires TotalOrder(cmp) && smallest < MAX_SEQUENCE_NUMBER
    ensures Protects(cmp, smallest, last, s) <==> s == 0 || smallest <= s || last <= s
  {
    if s == 0 || smallest <= s || last <= s {
      forall es, base, outside
        | Sorted(cmp, es) && !Exposes(es, smallest, base, outside) && UpTo(last, es, outside)
        ensures Unchanged(es, smallest, base, outside, s)
      {
        if s == 0 {
          NothingToReadAtZero(es, smallest, base, outside);
        } else if smallest <= s {
          NothingExposed(cmp, es, smallest, base, outside, s);
        } else {
          LatestProtected(cmp, es, smallest, base, outside, last, s);
        }
      }
    } else {
      OverwrittenVersionLost(cmp, smallest, last, s);
    }
  }

  /**
    The live snapshots are all protected exactly when the least live handle does not exceed the
    sequence number of any that is neither 0 nor the last.
   */
  lemma LiveSnapshotsProtected(cmp: Cmp, live: map<nat, nat>, smallest: nat, last: nat)
    requires TotalOrder(cmp) && IsOldest(live, smallest)
    ensures (forall h :: h in live ==> Protects(cmp, smallest, last, live[h]))
       <==> (forall h :: h in live ==> live[h] == 0 || smallest <= live[h] || last <= live[h])
  {
    forall h | h in live
      ensures Protects(cmp, smallest, last, live[h]) <==> live[h] == 0 || smallest <= live[h] || last <= live[h]
    {
      ProtectedSnapshots(cmp, smallest, last, live[h]);
    }
  }

  /**
    Two snapshots taken at sequence number 1, the first released, one more write: the compaction
    then started does not protect the second snapshot.
   */
  method ReleasedSnapshotExposed(cmp: Cmp) returns (smallest: nat, taken: nat)
    requires TotalOrder(cmp)
    ensures taken == 1 && !Protects(cmp, smallest, 2, taken)
  {
    var snaps := new SnapshotList();
    var first := snaps.NewSnapshot(1);
    var second := snaps.NewSnapshot(1);
    snaps.Delete(first);
    smallest := snaps.SmallestForCompaction(2);
    assert second in snaps.live && snaps.live.Keys == {second};
    taken := snaps.live[second];
    ProtectedSnapshots(cmp, smallest, 2, taken);
  }
}
