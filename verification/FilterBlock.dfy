/** Filter blocks: one filter for every 2 KiB of table data, as they are built, laid out and asked. */
module FilterBlocks {
  import opened Order
  import opened Codec
  import opened Filter

  const FILTER_BASE_LOG2: byte := 11

  /** A filter policy as the block sees it. */
  datatype Policy = Policy(create: seq<bytes> -> bytes, mayMatch: (bytes, bytes) -> bool)

  /** The filter that the data block at an offset belongs to, in 32 bits. */
  function FilterIndex(offset: nat, log2: nat): nat {
    offset / Pow2(log2) % U32_LIMIT
  }

  /** That is the range of 2 KiB that the offset lies in, for all offsets up to the 32-bit index. */
  lemma IndexExactly(offset: nat, ix: nat)
    requires offset < 2048 * U32_LIMIT
    ensures FilterIndex(offset, FILTER_BASE_LOG2) == ix <==> 2048 * ix <= offset < 2048 * (ix + 1)
  {
    assert Pow2(11) == 2 * Pow2(10) && Pow2(10) == 2 * Pow2(9) && Pow2(9) == 2 * Pow2(8) && Pow2(8) == 2 * Pow2(7);
    assert Pow2(7) == 2 * Pow2(6) && Pow2(6) == 2 * Pow2(5) && Pow2(5) == 2 * Pow2(4) && Pow2(4) == 2 * Pow2(3);
    assert Pow2(11) == 2048;
    hide Pow2;
  }

  // ----- which keys go into which filter

  function Flat(keys: seq<bytes>): bytes {
    if keys == [] then [] else Flat(keys[..|keys| - 1]) + keys[|keys| - 1]
  }

  /** The keys of each filter made so far, and those waiting for the next one. */
  datatype Groups = Groups(made: seq<seq<bytes>>, pending: seq<bytes>)

  /** Makes one filter; if the pending keys have no byte at all, it is empty and they stay pending. */
  function Flush(g: Groups): Groups {
    if Flat(g.pending) == [] then Groups(g.made + [[]], g.pending) else Groups(g.made + [g.pending], [])
  }

  function FlushTo(g: Groups, n: nat): (r: Groups)
    ensures |r.made| == if |g.made| >= n then |g.made| else n
    decreases n - |g.made|
  {
    if |g.made| >= n then g else FlushTo(Flush(g), n)
  }

  function Finished(g: Groups): Groups {
    if Flat(g.pending) == [] then g else Flush(g)
  }

  function FilterFor(p: Policy, keys: seq<bytes>): bytes {
    if keys == [] then [] else p.create(keys)
  }

  // ----- layout

  /** The end of filter `i` in the buffer of all filters. */
  function End(filters: bytes, offsets: seq<nat>, i: nat): nat
    requires i < |offsets|
  {
    if i + 1 < |offsets| then offsets[i + 1] else |filters|
  }

  ghost predicate StoresFilter(filters: bytes, offsets: seq<nat>, i: nat, filter: bytes)
    requires i < |offsets|
  {
    offsets[i] <= End(filters, offsets, i) <= |filters| && filters[offsets[i]..End(filters, offsets, i)] == filter
  }

  ghost predicate StoresAll(p: Policy, made: seq<seq<bytes>>, filters: bytes, offsets: seq<nat>) {
    && |offsets| == |made| && (if offsets == [] then filters == [] else offsets[0] == 0)
    && (forall i :: 0 <= i < |made| ==> StoresFilter(filters, offsets, i, FilterFor(p, made[i])))
  }

  function Contents(filters: bytes, offsets: seq<nat>): bytes {
    filters + EncodeAll(offsets + [|filters|]) + [FILTER_BASE_LOG2]
  }

  lemma StoresOneMore(p: Policy, made: seq<seq<bytes>>, filters: bytes, offsets: seq<nat>, keys: seq<bytes>)
    requires StoresAll(p, made, filters, offsets)
    ensures StoresAll(p, made + [keys], filters + FilterFor(p, keys), offsets + [|filters|])
  {
    var m, f, o := made + [keys], filters + FilterFor(p, keys), offsets + [|filters|];
    forall i | 0 <= i < |m| ensures StoresFilter(f, o, i, FilterFor(p, m[i])) {
      if i < |made| {
        assert StoresFilter(filters, offsets, i, FilterFor(p, made[i]));
        assert End(f, o, i) == End(filters, offsets, i);
        assert f[o[i]..End(f, o, i)] == filters[offsets[i]..End(filters, offsets, i)];
      } else {
        assert f[o[i]..End(f, o, i)] == FilterFor(p, keys);
      }
    }
  }

  lemma FlatAppend(keys: seq<bytes>, key: bytes)
    ensures Flat(keys + [key]) == Flat(keys) + key
  {
    var k := keys + [key];
    assert k[..|k| - 1] == keys;
  }

  class FilterBlockBuilder {
    const policy: Policy
    var filters: bytes
    var filterOffsets: seq<nat>
    var keyOffsets: seq<nat>
    var keys: bytes
    ghost var groups: Groups

    ghost predicate Valid()
      reads this
    {
      && Offsets(keys, keyOffsets)
      && Pieces(keys, keyOffsets) == groups.pending
      && Flat(groups.pending) == keys
      && |filterOffsets| == |groups.made|
      && StoresAll(policy, groups.made, filters, filterOffsets)
    }

    constructor (policy: Policy)
      ensures Valid() && this.policy == policy && groups == Groups([], [])
    {
      this.policy := policy;
      filters, filterOffsets, keyOffsets, keys := [], [], [], [];
      groups := Groups([], []);
    }

    method AddKey(key: bytes)
      requires Valid()
      modifies this
      ensures Valid() && groups == Groups(old(groups.made), old(groups.pending) + [key])
    {
      AppendPiece(keys, keyOffsets, key);
      FlatAppend(groups.pending, key);
      hide Pieces, Flat, Offsets, StoresAll;
      keyOffsets := keyOffsets + [|keys|];
      keys := keys + key;
      groups := Groups(groups.made, groups.pending + [key]);
    }

    method GenerateFilter()
      requires Valid()
      modifies this
      ensures Valid() && groups == Flush(old(groups))
    {
      StoresOneMore(policy, groups.made, filters, filterOffsets, if keys == [] then [] else groups.pending);
      FlatNothing();
      hide Flat, StoresAll, StoresFilter;
      groups := Flush(groups);
      filterOffsets := filterOffsets + [|filters|];
      if keys == [] {
        assert filters + [] == filters;
        return;
      }
      filters := filters + policy.create(Pieces(keys, keyOffsets));
      keys := [];
      keyOffsets := [];
    }

    /** Starting a data block makes the filters of the ranges before it. */
    method StartBlock(offset: nat)
      requires Valid() && FilterIndex(offset, FILTER_BASE_LOG2) >= |filterOffsets|
      modifies this
      ensures Valid() && groups == FlushTo(old(groups), FilterIndex(offset, FILTER_BASE_LOG2))
      ensures |filterOffsets| == FilterIndex(offset, FILTER_BASE_LOG2)
    {
      var ix := FilterIndex(offset, FILTER_BASE_LOG2);
      while ix > |filterOffsets|
        invariant Valid() && |filterOffsets| <= ix
        invariant FlushTo(groups, ix) == FlushTo(old(groups), ix)
      {
        GenerateFilter();
      }
    }

    method Finish() returns (result: bytes)
      requires Valid()
      modifies this
      ensures Valid() && groups == Finished(old(groups)) && result == Contents(filters, filterOffsets)
    {
      if keys != [] {
        GenerateFilter();
      }
      result := Encode(filters, filterOffsets);
    }

    /** Adds the keys of one data block. */
    method AddKeys(ks: seq<bytes>)
      requires Valid()
      modifies this
      ensures Valid() && groups == Groups(old(groups.made), old(groups.pending) + ks)
    {
      hide Pieces, Flat, Offsets, StoresAll;
      for j := 0 to |ks|
        invariant Valid() && groups == Groups(old(groups.made), old(groups.pending) + ks[..j])
      {
        AddKey(ks[j]);
        assert old(groups.pending) + ks[..j] + [ks[j]] == old(groups.pending) + ks[..j + 1];
      }
      assert ks[..|ks|] == ks;
    }
  }

  /** Puts the offsets, and the offset of the offsets, behind the filters. */
  method Encode(filters: bytes, offsets: seq<nat>) returns (result: bytes)
    ensures result == Contents(filters, offsets)
  {
    hide EncodeAll, EncodeFixed;
    result := filters;
    EncodeNothing(filters, offsets);
    for i := 0 to |offsets|
      invariant result == filters + EncodeAll(offsets[..i])
    {
      EncodeOneMore(offsets, i);
      Regroup(filters, EncodeAll(offsets[..i]), EncodeFixed(offsets[i], 4));
      result := result + EncodeFixed(offsets[i], 4);
    }
    EncodeLast(offsets, |filters|);
    assert offsets[..|offsets|] == offsets;
    Regroup(filters, EncodeAll(offsets), EncodeFixed(|filters|, 4));
    result := result + EncodeFixed(|filters|, 4) + [FILTER_BASE_LOG2];
  }

  lemma EncodeNothing(filters: bytes, ns: seq<nat>)
    ensures filters == filters + EncodeAll(ns[..0])
  {
    assert ns[..0] == [];
  }

  lemma EncodeLast(ns: seq<nat>, n: nat)
    ensures EncodeAll(ns + [n]) == EncodeAll(ns) + EncodeFixed(n, 4)
  {
    assert (ns + [n])[..|ns|] == ns;
  }

  lemma FlatNothing()
    ensures Flat([]) == []
  {
  }

  lemma EncodeOneMore(ns: seq<nat>, i: nat)
    requires i < |ns|
    ensures EncodeAll(ns[..i + 1]) == EncodeAll(ns[..i]) + EncodeFixed(ns[i], 4)
  {
    assert ns[..i + 1][..i] == ns[..i];
  }

  // ----- asking

  /** The reader's answer, or a failed assertion or out-of-range slice. */
  datatype Lookup = Answer(may: bool) | Panicked

  datatype Reader = Reader(policy: Policy, block: bytes, offsetsOffset: nat, filterBaseLog2: nat) {
    function Num(): nat
      requires |block| >= offsetsOffset + 5
    {
      (|block| - offsetsOffset - 5) / 4 % U32_LIMIT
    }

    function OffsetOf(i: nat): Option<nat> {
      var at := offsetsOffset + 4 * i;
      if at + 4 <= |block| then Some(DecodeFixed(block[at..at + 4])) else None
    }

    function KeyMayMatch(offset: nat, key: bytes): Lookup {
      if |block| < offsetsOffset + 5 then Panicked
      else
        var ix := FilterIndex(offset, filterBaseLog2);
        if ix > Num() then Answer(true)
        else
          match (OffsetOf(ix), OffsetOf(ix + 1))
          case (Some(begin), Some(end)) =>
            if begin < end <= offsetsOffset then Answer(policy.mayMatch(key, block[begin..end])) else Panicked
          case _ => Panicked
    }
  }

  function Open(policy: Policy, data: bytes): Reader
    requires |data| >= 5
  {
    Reader(policy, data, DecodeFixed(data[|data| - 5..|data| - 1]), data[|data| - 1])
  }

  /** Where a block holds its offsets, the last being that of the offsets themselves. */
  lemma OffsetStored(filters: bytes, offsets: seq<nat>, i: nat)
    requires i <= |offsets|
    ensures var data, at := Contents(filters, offsets), |filters| + 4 * i;
      && |data| == |filters| + 4 * |offsets| + 5 && data[|data| - 1] == FILTER_BASE_LOG2
      && data[at..at + 4] == EncodeFixed((offsets + [|filters|])[i], 4)
  {
    var all := offsets + [|filters|];
    EncodeAllAt(all, i);
    EncodeAllAt(all, |offsets|);
    hide EncodeAll, EncodeFixed;
    CutMiddle(filters, EncodeAll(all), [FILTER_BASE_LOG2], 4 * i, 4 * i + 4);
  }

  lemma OpenFinds(p: Policy, filters: bytes, offsets: seq<nat>)
    requires |Contents(filters, offsets)| < U32_LIMIT
    ensures var r := Open(p, Contents(filters, offsets));
      r.offsetsOffset == |filters| && r.Num() == |offsets| && r.filterBaseLog2 == FILTER_BASE_LOG2
  {
    OffsetStored(filters, offsets, |offsets|);
    Fixed32RoundTrip(|filters|);
    hide Contents, EncodeFixed, DecodeFixed;
  }

  lemma OffsetReads(p: Policy, filters: bytes, offsets: seq<nat>, i: nat)
    requires |Contents(filters, offsets)| < U32_LIMIT && i <= |offsets| && (offsets + [|filters|])[i] < U32_LIMIT
    ensures Open(p, Contents(filters, offsets)).OffsetOf(i) == Some((offsets + [|filters|])[i])
  {
    OpenFinds(p, filters, offsets);
    OffsetStored(filters, offsets, i);
    Fixed32RoundTrip((offsets + [|filters|])[i]);
    hide Contents, EncodeFixed, DecodeFixed, Open;
  }

  /**
    What the reader says of any key at any offset, for a block as the builder leaves it: it asks the
    policy about the filter of the range; it cannot answer where that filter is empty or at the
    range right after the last, and says "maybe" beyond.
   */
  lemma ReaderAnswers(p: Policy, made: seq<seq<bytes>>, filters: bytes, offsets: seq<nat>, offset: nat, key: bytes)
    requires StoresAll(p, made, filters, offsets) && |Contents(filters, offsets)| < U32_LIMIT
    ensures var ix := FilterIndex(offset, FILTER_BASE_LOG2);
            Open(p, Contents(filters, offsets)).KeyMayMatch(offset, key) ==
              if ix > |made| then Answer(true)
              else if ix == |made| || FilterFor(p, made[ix]) == [] then Panicked
              else Answer(p.mayMatch(key, FilterFor(p, made[ix])))
  {
    var ix := FilterIndex(offset, FILTER_BASE_LOG2);
    var r := Open(p, Contents(filters, offsets));
    OpenFinds(p, filters, offsets);
    hide Open, EncodeAll, FilterIndex, FilterFor, DecodeFixed;
    if ix < |made| {
      assert StoresFilter(filters, offsets, ix, FilterFor(p, made[ix]));
      OffsetReads(p, filters, offsets, ix);
      OffsetReads(p, filters, offsets, ix + 1);
      CutFilter(filters, offsets, ix);
      hide Contents, StoresFilter;
    }
  }

  lemma CutFilter(filters: bytes, offsets: seq<nat>, i: nat)
    requires i < |offsets| && offsets[i] <= End(filters, offsets, i) <= |filters|
    ensures (offsets + [|filters|])[i] == offsets[i]
    ensures (offsets + [|filters|])[i + 1] == End(filters, offsets, i)
    ensures |filters| <= |Contents(filters, offsets)|
    ensures Contents(filters, offsets)[offsets[i]..End(filters, offsets, i)]
            == filters[offsets[i]..End(filters, offsets, i)]
  {
    hide EncodeAll;
  }

  // ----- whole runs

  /** The keys of one data block, under the index of its filter. */
  datatype Block = Block(ix: nat, keys: seq<bytes>)

  ghost predicate InOrder(blocks: seq<Block>) {
    forall i, j :: 0 <= i < j < |blocks| ==> blocks[i].ix <= blocks[j].ix
  }

  /** The groups that a run of blocks leaves. */
  ghost function After(blocks: seq<Block>): Groups {
    if blocks == [] then Groups([], [])
    else
      var last := blocks[|blocks| - 1];
      var g := FlushTo(After(blocks[..|blocks| - 1]), last.ix);
      Groups(g.made, g.pending + last.keys)
  }

  /** Some block of this range holds a key that is not empty. */
  ghost predicate HasKey(blocks: seq<Block>, ix: nat) {
    exists b, k :: 0 <= b < |blocks| && 0 <= k < |blocks[b].keys| && blocks[b].ix == ix && blocks[b].keys[k] != []
  }

  ghost predicate Placed(g: Groups, ix: nat, key: bytes, hasKey: bool) {
    && ix <= |g.made|
    && (if ix == |g.made| then key in g.pending
        else if hasKey then key in g.made[ix]
        else g.made[ix] == [])
  }

  ghost predicate PlacesBlock(g: Groups, blocks: seq<Block>, b: nat)
    requires b < |blocks|
  {
    && blocks[b].ix <= |g.made|
    && forall k :: 0 <= k < |blocks[b].keys| ==>
        Placed(g, blocks[b].ix, blocks[b].keys[k], HasKey(blocks, blocks[b].ix))
  }

  ghost predicate Places(g: Groups, blocks: seq<Block>) {
    && (forall b :: 0 <= b < |blocks| ==> PlacesBlock(g, blocks, b))
    && (Flat(g.pending) != [] <==> HasKey(blocks, |g.made|))
  }

  lemma FlushPlaces(g: Groups, blocks: seq<Block>)
    requires Places(g, blocks)
    ensures Places(Flush(g), blocks)
  {
    hide Flat;
    FlatNothing();
    var f := Flush(g);
    forall b | 0 <= b < |blocks| ensures PlacesBlock(f, blocks, b) {
      assert PlacesBlock(g, blocks, b);
      hide HasKey;
      forall k | 0 <= k < |blocks[b].keys|
        ensures Placed(f, blocks[b].ix, blocks[b].keys[k], HasKey(blocks, blocks[b].ix))
      {
        assert Placed(g, blocks[b].ix, blocks[b].keys[k], HasKey(blocks, blocks[b].ix));
      }
    }
    assert !HasKey(blocks, |f.made|) by {
      assert forall b :: 0 <= b < |blocks| ==> blocks[b].ix < |f.made| by {
        forall b | 0 <= b < |blocks| ensures blocks[b].ix < |f.made| { assert PlacesBlock(g, blocks, b); }
      }
    }
  }

  lemma {:induction false} FlushToPlaces(g: Groups, blocks: seq<Block>, n: nat)
    requires Places(g, blocks)
    ensures Places(FlushTo(g, n), blocks)
    decreases n - |g.made|
  {
    hide Places, Flush;
    if |g.made| < n {
      FlushPlaces(g, blocks);
      FlushGrows(g);
      FlushToPlaces(Flush(g), blocks, n);
    }
  }

  lemma FlushGrows(g: Groups)
    ensures |Flush(g).made| == |g.made| + 1
  {
  }

  lemma {:induction false} FlatEmpty(keys: seq<bytes>, more: seq<bytes>)
    ensures Flat(keys + more) == [] <==> Flat(keys) == [] && forall k :: 0 <= k < |more| ==> more[k] == []
    decreases |more|
  {
    var n := |more| - 1;
    if more == [] {
      assert keys + more == keys;
    } else {
      FlatEmpty(keys, more[..n]);
      FlatAppend(keys + more[..n], more[n]);
      hide Flat;
      assert keys + more == (keys + more[..n]) + [more[n]];
      assert forall k :: 0 <= k < n ==> more[k] == more[..n][k];
    }
  }

  lemma HasKeyAppend(blocks: seq<Block>, blk: Block, ix: nat)
    ensures HasKey(blocks + [blk], ix) <==>
            HasKey(blocks, ix) || (blk.ix == ix && exists k :: 0 <= k < |blk.keys| && blk.keys[k] != [])
  {
    var all := blocks + [blk];
    if HasKey(blocks, ix) {
      var b, k :| 0 <= b < |blocks| && 0 <= k < |blocks[b].keys| && blocks[b].ix == ix && blocks[b].keys[k] != [];
      assert all[b].keys[k] != [];
    }
    if blk.ix == ix && exists k :: 0 <= k < |blk.keys| && blk.keys[k] != [] {
      var k :| 0 <= k < |blk.keys| && blk.keys[k] != [];
      assert all[|blocks|].keys[k] != [];
    }
  }

  lemma AddPlaces(g: Groups, blocks: seq<Block>, blk: Block)
    requires Places(g, blocks) && blk.ix == |g.made|
    ensures Places(Groups(g.made, g.pending + blk.keys), blocks + [blk])
  {
    var all, h := blocks + [blk], Groups(g.made, g.pending + blk.keys);
    FlatEmpty(g.pending, blk.keys);
    HasKeyAppend(blocks, blk, |g.made|);
    hide HasKey, Flat;
    forall b | 0 <= b < |all| ensures PlacesBlock(h, all, b) {
      HasKeyAppend(blocks, blk, all[b].ix);
      if b < |blocks| {
        assert PlacesBlock(g, blocks, b);
        forall k | 0 <= k < |all[b].keys| ensures Placed(h, all[b].ix, all[b].keys[k], HasKey(all, all[b].ix)) {
          assert Placed(g, blocks[b].ix, blocks[b].keys[k], HasKey(blocks, blocks[b].ix));
        }
      }
    }
  }

  lemma {:induction false} AfterSize(blocks: seq<Block>)
    requires InOrder(blocks)
    ensures |After(blocks).made| == if blocks == [] then 0 else blocks[|blocks| - 1].ix
  {
    if blocks != [] {
      AfterSize(blocks[..|blocks| - 1]);
    }
  }

  lemma {:induction false} AfterPlaces(blocks: seq<Block>)
    requires InOrder(blocks)
    ensures Places(After(blocks), blocks)
  {
    if blocks != [] {
      var before, last := blocks[..|blocks| - 1], blocks[|blocks| - 1];
      AfterPlaces(before);
      AfterSize(before);
      hide Places, Flush;
      FlushToPlaces(After(before), before, last.ix);
      AddPlaces(FlushTo(After(before), last.ix), before, last);
      assert before + [last] == blocks;
    }
  }

  /**
    Over every run of blocks in order, whatever ranges they share or skip: a key reaches the filter
    of its range if that range has a key that is not empty, and otherwise the range has no filter.
   */
  lemma EveryKeyReachesItsFilter(blocks: seq<Block>, b: nat, k: nat)
    requires InOrder(blocks) && b < |blocks| && k < |blocks[b].keys|
    ensures var made, ix := Finished(After(blocks)).made, blocks[b].ix;
            if HasKey(blocks, ix) then ix < |made| && blocks[b].keys[k] in made[ix]
            else ix == |made| || (ix < |made| && made[ix] == [])
  {
    AfterPlaces(blocks);
    var g := After(blocks);
    var f := Finished(g);
    if Flat(g.pending) != [] {
      FlushPlaces(g, blocks);
    }
    hide Flat, HasKey, After;
    assert PlacesBlock(f, blocks, b);
    assert Placed(f, blocks[b].ix, blocks[b].keys[k], HasKey(blocks, blocks[b].ix));
    if blocks[b].ix == |f.made| {
      FinishedHasNone(g, blocks);
    }
  }

  lemma FinishedHasNone(g: Groups, blocks: seq<Block>)
    requires Places(g, blocks)
    ensures Places(Finished(g), blocks) && !HasKey(blocks, |Finished(g).made|)
  {
    FlatNothing();
    if Flat(g.pending) != [] {
      FlushPlaces(g, blocks);
    }
    hide HasKey;
  }

  // ----- nothing else goes into a filter

  ghost predicate KeyOf(blocks: seq<Block>, ix: nat, key: bytes) {
    exists b :: 0 <= b < |blocks| && blocks[b].ix == ix && key in blocks[b].keys
  }

  /** Keys wait, or are in a filter, only under the index of a block that has them; empty keys may be late. */
  ghost predicate NoStrays(g: Groups, blocks: seq<Block>) {
    && (forall i: nat, key :: i < |g.made| && key in g.made[i] && key != [] ==> KeyOf(blocks, i, key))
    && (forall key :: key in g.pending && key != [] ==> KeyOf(blocks, |g.made|, key))
  }

  lemma FlushNoStrays(g: Groups, blocks: seq<Block>)
    requires NoStrays(g, blocks)
    ensures NoStrays(Flush(g), blocks)
  {
    hide Flat, KeyOf;
    if Flat(g.pending) == [] {
      AllEmpty(g.pending);
    }
    var f := Flush(g);
    forall i: nat, key | i < |f.made| && key in f.made[i] && key != [] ensures KeyOf(blocks, i, key) {
      assert i < |g.made| ==> f.made[i] == g.made[i];
    }
  }

  lemma AllEmpty(keys: seq<bytes>)
    requires Flat(keys) == []
    ensures forall key :: key in keys ==> key == []
  {
    FlatEmpty([], keys);
    hide Flat;
    assert [] + keys == keys;
  }

  lemma {:induction false} FlushToNoStrays(g: Groups, blocks: seq<Block>, n: nat)
    requires NoStrays(g, blocks)
    ensures NoStrays(FlushTo(g, n), blocks)
    decreases n - |g.made|
  {
    hide NoStrays, Flush;
    if |g.made| < n {
      FlushNoStrays(g, blocks);
      FlushGrows(g);
      FlushToNoStrays(Flush(g), blocks, n);
    }
  }

  lemma KeyOfMore(blocks: seq<Block>, blk: Block, ix: nat, key: bytes)
    ensures KeyOf(blocks, ix, key) || (blk.ix == ix && key in blk.keys) ==> KeyOf(blocks + [blk], ix, key)
  {
    var all := blocks + [blk];
    assert all[|blocks|] == blk;
    if b :| 0 <= b < |blocks| && blocks[b].ix == ix && key in blocks[b].keys {
      assert all[b] == blocks[b];
    }
  }

  lemma {:induction false} AfterNoStrays(blocks: seq<Block>)
    requires InOrder(blocks)
    ensures NoStrays(After(blocks), blocks)
  {
    if blocks != [] {
      var before, last := blocks[..|blocks| - 1], blocks[|blocks| - 1];
      AfterNoStrays(before);
      AfterSize(before);
      FlushToNoStrays(After(before), before, last.ix);
      forall ix, key { KeyOfMore(before, last, ix, key); }
      assert before + [last] == blocks;
      hide KeyOf, Flush;
    }
  }

  /** A filter is made of keys of its own range, and nothing but them and empty keys. */
  lemma OnlyItsKeys(blocks: seq<Block>, ix: nat, key: bytes)
    requires InOrder(blocks) && ix < |Finished(After(blocks)).made|
    requires key in Finished(After(blocks)).made[ix] && key != []
    ensures KeyOf(blocks, ix, key)
  {
    AfterNoStrays(blocks);
    FlushNoStrays(After(blocks), blocks);
    hide After, Flat, KeyOf, Flush;
  }

  /** The policy finds each key in the filter it made of a group of them, and such filters are not empty. */
  ghost predicate Finds(p: Policy, keys: seq<bytes>) {
    p.create(keys) != [] && forall k :: k in keys ==> p.mayMatch(k, p.create(keys))
  }

  /** A Bloom policy as a block sees it finds the keys of any group whose filter is not too long. */
  lemma BloomFinds(p: Policy, b: Bloom, keys: seq<bytes>)
    requires b.Valid() && BitCount(FilterLength(b, |keys|)) > 0 && Holds(b, keys, p.create(keys))
    requires forall k, f :: Probeable(f) ==> (p.mayMatch(k, f) <==> MayMatch(b, k, f))
    ensures Finds(p, keys)
  {
    forall k | k in keys ensures p.mayMatch(k, p.create(keys)) {
      NoFalseNegatives(b, keys, p.create(keys), b, k);
    }
  }

  /** A data block of a table: where it starts, and its keys. */
  datatype DataBlock = DataBlock(offset: nat, keys: seq<bytes>)

  ghost function Indexed(blocks: seq<DataBlock>): (r: seq<Block>)
    ensures |r| == |blocks|
  {
    seq(|blocks|, i requires 0 <= i < |blocks| =>
      Block(FilterIndex(blocks[i].offset, FILTER_BASE_LOG2), blocks[i].keys))
  }

  /** Builds the filter block of a table. */
  method BuildFilterBlock(p: Policy, blocks: seq<DataBlock>) returns (data: bytes)
    requires InOrder(Indexed(blocks))
    ensures exists filters, offsets ::
              && data == Contents(filters, offsets)
              && StoresAll(p, Finished(After(Indexed(blocks))).made, filters, offsets)
  {
    hide Pieces, Flat, Offsets, StoresAll, Contents, Finished, FlushTo;
    ghost var all: seq<Block> := Indexed(blocks);
    var builder := new FilterBlockBuilder(p);
    for i := 0 to |blocks|
      invariant builder.Valid() && builder.policy == p && fresh(builder)
      invariant builder.groups == After(all[..i])
    {
      AfterSize(all[..i]);
      AfterStep(all, i);
      hide After, FilterIndex;
      builder.StartBlock(blocks[i].offset);
      builder.AddKeys(blocks[i].keys);
    }
    assert all[..|blocks|] == all;
    data := builder.Finish();
  }

  lemma AfterStep(all: seq<Block>, i: nat)
    requires i < |all|
    ensures var g := FlushTo(After(all[..i]), all[i].ix); After(all[..i + 1]) == Groups(g.made, g.pending + all[i].keys)
  {
    assert all[..i + 1][..i] == all[..i];
  }

  /**
    Build, then ask: a key is answered "maybe" at the offset of its data block, provided that the
    policy finds keys and the range has a key that is not empty; without such a key the reader fails.
   */
  lemma BuiltBlockFindsKeys(p: Policy, blocks: seq<DataBlock>, filters: bytes, offsets: seq<nat>, b: nat, k: nat)
    requires InOrder(Indexed(blocks)) && b < |blocks| && k < |blocks[b].keys|
    requires StoresAll(p, Finished(After(Indexed(blocks))).made, filters, offsets)
             && |Contents(filters, offsets)| < U32_LIMIT
    requires forall i :: 0 <= i < |offsets| && Finished(After(Indexed(blocks))).made[i] != [] ==>
             Finds(p, Finished(After(Indexed(blocks))).made[i])
    ensures Open(p, Contents(filters, offsets)).KeyMayMatch(blocks[b].offset, blocks[b].keys[k]) ==
            if HasKey(Indexed(blocks), FilterIndex(blocks[b].offset, FILTER_BASE_LOG2)) then Answer(true) else Panicked
  {
    var all := Indexed(blocks);
    assert all[b].keys == blocks[b].keys;
    EveryKeyReachesItsFilter(all, b, k);
    hide After, HasKey, Finished, FilterIndex, Open, Contents, StoresFilter;
    ReaderAnswers(p, Finished(After(all)).made, filters, offsets, blocks[b].offset, blocks[b].keys[k]);
  }

  /** One block with one key: asked about the range right after it, the reader fails. */
  method NextRangeFails(key: bytes) returns (r: Lookup)
    requires key != []
    ensures r == Panicked
  {
    var p := Policy((_: seq<bytes>) => [0], (_: bytes, _: bytes) => true);
    var blocks := [DataBlock(0, [key])];
    OneRange(key);
    hide After, Contents, StoresAll, FilterIndex;
    var data := BuildFilterBlock(p, blocks);
    ghost var filters, offsets :| data == Contents(filters, offsets) && StoresAll(p, [[key]], filters, offsets);
    OneFilter(p, key, filters, offsets);
    ReaderAnswers(p, [[key]], filters, offsets, 2048, key);
    r := Open(p, data).KeyMayMatch(2048, key);
  }

  lemma OneRange(key: bytes)
    requires key != []
    ensures var all := Indexed([DataBlock(0, [key])]); InOrder(all) && Finished(After(all)).made == [[key]]
    ensures FilterIndex(2048, FILTER_BASE_LOG2) == 1
  {
    assert Pow2(11) == 2048 by {
      assert Pow2(3) == 8 && Pow2(6) == 8 * Pow2(3) && Pow2(9) == 8 * Pow2(6) && Pow2(11) == 4 * Pow2(9);
    }
    var all := Indexed([DataBlock(0, [key])]);
    assert all == [Block(0, [key])] && all[..0] == [];
    assert After(all) == Groups([], [key]) by {
      assert After([]) == Groups([], []) && [] + [key] == [key];
    }
    assert Flat([key]) == key by { assert [key][..0] == [] && [] + key == key; }
  }

  lemma OneFilter(p: Policy, key: bytes, filters: bytes, offsets: seq<nat>)
    requires StoresAll(p, [[key]], filters, offsets) && p.create([key]) == [0]
    ensures |Contents(filters, offsets)| == 10
  {
    assert StoresFilter(filters, offsets, 0, FilterFor(p, [[key]][0]));
  }
}
