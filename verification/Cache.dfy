/** The block cache: a hash map whose entries are linked into a list in order of last use. */
module Cache {
  import opened Order

  class LruNode<K> {
    var next: LruNode?<K>
    var prev: LruNode?<K>
    var data: Option<K>

    constructor (data: Option<K>, prev: LruNode?<K>)
      ensures this.data == data && this.prev == prev && next == null
    {
      this.data, this.prev, next := data, prev, null;
    }
  }

  ghost predicate Apart<X>(s: seq<X>, i: int, j: int) {
    0 <= i < |s| && 0 <= j < |s| && s[i] != s[j]
  }

  ghost predicate Distinct<X>(s: seq<X>) {
    forall i, j {:trigger Apart(s, i, j)} :: 0 <= i < |s| && 0 <= j < |s| && i != j ==> Apart(s, i, j)
  }

  ghost function Without<X>(s: seq<X>, k: nat): seq<X>
    requires k < |s|
  {
    s[..k] + s[k + 1..]
  }

  lemma WithoutAt<X>(s: seq<X>, k: nat)
    requires k < |s|
    ensures |Without(s, k)| == |s| - 1
    ensures forall i :: 0 <= i < |s| - 1 ==> Without(s, k)[i] == s[if i < k then i else i + 1]
  {
  }

  lemma DistinctCons<X>(s: seq<X>, x: X)
    requires Distinct(s) && x !in s
    ensures Distinct([x] + s)
  {
    forall i, j | 0 <= i < |s| + 1 && 0 <= j < |s| + 1 && i != j ensures Apart([x] + s, i, j) {
      assert i > 0 && j > 0 ==> Apart(s, i - 1, j - 1);
    }
  }

  lemma DistinctPrefix<X>(s: seq<X>, n: nat)
    requires Distinct(s) && n <= |s|
    ensures Distinct(s[..n])
  {
    forall i, j | 0 <= i < n && 0 <= j < n && i != j ensures Apart(s[..n], i, j) {
      assert Apart(s, i, j);
    }
  }

  lemma DistinctTail<X>(s: seq<X>)
    requires Distinct(s) && s != []
    ensures Distinct(s[1..])
  {
    forall i, j | 0 <= i < |s| - 1 && 0 <= j < |s| - 1 && i != j ensures Apart(s[1..], i, j) {
      assert Apart(s, i + 1, j + 1);
    }
  }

  lemma DistinctWithout<X>(s: seq<X>, k: nat)
    requires Distinct(s) && k < |s|
    ensures Distinct(Without(s, k)) && s[k] !in Without(s, k)
    ensures forall x :: x in s ==> x == s[k] || x in Without(s, k)
  {
    var w := Without(s, k);
    forall i, j | 0 <= i < |w| && 0 <= j < |w| && i != j ensures Apart(w, i, j) {
      assert Apart(s, if i < k then i else i + 1, if j < k then j else j + 1);
    }
    forall i | 0 <= i < |w| ensures w[i] != s[k] {
      assert Apart(s, if i < k then i else i + 1, k);
    }
    forall i | 0 <= i < |s| && i != k ensures s[i] in w {
      assert s[i] == w[if i < k then i else i - 1];
    }
  }

  /** A doubly linked list with a head node; the head's prev is the last node. */
  class LruList<K> {
    const head: LruNode<K>
    var count: nat
    ghost var nodes: seq<LruNode<K>>
    /** The elements, most recently used first. */
    ghost var keys: seq<K>

    ghost predicate Linked(i: nat)
      requires i < |nodes| == |keys|
      reads this, nodes
    {
      && nodes[i].data == Some(keys[i])
      && nodes[i].next == (if i + 1 < |nodes| then nodes[i + 1] else null)
      && nodes[i].prev == (if i > 0 then nodes[i - 1] else head)
    }

    ghost predicate Valid()
      reads this, head, nodes
    {
      count == |nodes| && Chained()
    }

    /** Forward and backward links agree with the order of the nodes. */
    ghost predicate Chained()
      reads this, head, nodes
    {
      && |nodes| == |keys| && head !in nodes && Distinct(nodes)
      && (forall i :: 0 <= i < |nodes| ==> Linked(i))
      && if nodes == [] then head.next == null && (head.prev == null || head.prev == head)
         else head.next == nodes[0] && head.prev == nodes[|nodes| - 1]
    }

    constructor ()
      ensures Valid() && nodes == [] && keys == [] && fresh(head)
    {
      head := new LruNode<K>(None, null);
      count := 0;
      nodes, keys := [], [];
    }

    /** Inserts a new element at the front. */
    method Insert(elem: K) returns (handle: LruNode<K>)
      requires Valid()
      modifies this, head, nodes
      ensures Valid() && fresh(handle) && nodes == [handle] + old(nodes) && keys == [elem] + old(keys)
    {
      count := count + 1;
      handle := new LruNode<K>(Some(elem), head);
      if head.next != null {
        head.next.prev := handle;
        handle.next := head.next;
        head.next := handle;
      } else {
        head.prev := handle;
        head.next := handle;
      }
      nodes, keys := [handle] + nodes, [elem] + keys;
      DistinctCons(old(nodes), handle);
      forall i | 0 <= i < |nodes| ensures Linked(i) {
        assert i > 0 ==> old(Linked(i - 1));
        assert i > 1 ==> Apart(old(nodes), 0, i - 1);
      }
    }

    /** Removes the least recently used element, if there is one. */
    method RemoveLast() returns (r: Option<K>)
      requires Valid()
      modifies this, head, nodes
      ensures Valid()
      ensures if old(keys) == [] then r == None && nodes == old(nodes) && keys == old(keys)
        else var n := |old(keys)| - 1; r == Some(old(keys)[n]) && nodes == old(nodes)[..n] && keys == old(keys)[..n]
      ensures old(keys) != [] ==> old(nodes)[|old(nodes)| - 1].data == None
    {
      if head.prev == null {
        return None;
      }
      ghost var n := |nodes| - 1;
      assert nodes != [] ==> Linked(n) && (n > 0 ==> Linked(n - 1));
      var beforeLast := head.prev.prev;
      if beforeLast == null {
        assert false;
      }
      var last := beforeLast.next;
      beforeLast.next := null;
      if last == null {
        return None;
      }
      head.prev := last.prev;
      count := count - 1;
      r := last.data;
      last.data := None;
      nodes, keys := nodes[..n], keys[..n];
      DistinctPrefix(old(nodes), n);
      forall i | 0 <= i < |nodes| ensures Linked(i) {
        assert old(Linked(i)) && Apart(old(nodes), i, n);
        assert i < n - 1 ==> Apart(old(nodes), i, n - 1);
      }
    }

    /** First half of reinserting: takes the node at position `k` out of the chain; its next then refers to itself. */
    method Unlink(handle: LruNode<K>, ghost k: nat)
      requires Chained() && k < |nodes| && handle == nodes[k]
      modifies this`nodes, this`keys, head, nodes
      ensures Chained() && nodes == Without(old(nodes), k) && keys == Without(old(keys), k)
      ensures handle !in nodes && handle.data == Some(old(keys)[k]) && handle.next == handle
              && (nodes == [] ==> handle.prev == head)
    {
      assert Linked(k);
      if handle.next != null {
        UnlinkInner(handle, k);
      } else {
        UnlinkLast(handle);
      }
    }

    /** All that changed is that the nodes around position `k` refer to each other. */
    twostate predicate Bridged(was: seq<LruNode<K>>, k: nat)
      requires k + 1 < |was|
      reads this, head, was
    {
      && (forall o :: 0 <= o < |was| && o != k ==> was[o].data == old(was[o].data))
      && (forall o :: 0 <= o < |was| && o != k ==>
            was[o].next == if o == k - 1 then was[k + 1] else old(was[o].next))
      && (forall o :: 0 <= o < |was| && o != k ==>
            was[o].prev == if o == k + 1 then (if k > 0 then was[k - 1] else head) else old(was[o].prev))
      && head.next == (if k == 0 then was[1] else old(head.next)) && head.prev == old(head.prev)
    }

    /** The chain without the node is a chain again. */
    twostate lemma Rechained(k: nat)
      requires old(Chained()) && k + 1 < |old(nodes)| && Bridged(old(nodes), k)
      requires nodes == Without(old(nodes), k) && keys == Without(old(keys), k)
      ensures Chained()
    {
      DistinctWithout(old(nodes), k);
      WithoutAt(old(nodes), k);
      WithoutAt(old(keys), k);
      hide Distinct, Without;
      forall i | 0 <= i < |nodes| ensures Linked(i) {
        assert old(Linked(if i < k then i else i + 1));
      }
    }

    /** The node has a successor, which takes its place. */
    method UnlinkInner(handle: LruNode<K>, ghost k: nat)
      requires Chained() && k + 1 < |nodes| && handle == nodes[k]
      modifies this`nodes, this`keys, head, nodes
      ensures Chained() && nodes == Without(old(nodes), k) && keys == Without(old(keys), k)
      ensures handle !in nodes && handle.data == Some(old(keys)[k]) && handle.next == handle
    {
      assert Linked(k) && (k > 0 ==> Linked(k - 1)) && Linked(k + 1);
      var prevp := handle.prev;
      handle.next.prev := prevp;
      prevp.next, handle.next := handle.next, prevp.next;
      forall o | 0 <= o < |nodes| && o != k ensures nodes[o] != handle {
        assert Apart(nodes, o, k);
      }
      forall o | 0 <= o < |nodes| && o != k + 1 ensures nodes[o] != nodes[k + 1] {
        assert Apart(nodes, o, k + 1);
      }
      forall o | 0 <= o < |nodes| && k > 0 && o != k - 1 ensures nodes[o] != nodes[k - 1] {
        assert Apart(nodes, o, k - 1);
      }
      assert Bridged(old(nodes), k);
      nodes, keys := Without(nodes, k), Without(keys, k);
      DistinctWithout(old(nodes), k);
      Rechained(k);
    }

    /** The node is the last one. */
    method UnlinkLast(handle: LruNode<K>)
      requires Chained() && nodes != [] && handle == nodes[|nodes| - 1]
      modifies this`nodes, this`keys, head, nodes
      ensures var n := |old(nodes)| - 1; Chained() && nodes == Without(old(nodes), n) && keys == Without(old(keys), n)
      ensures handle !in nodes && handle.data == Some(old(keys)[|old(nodes)| - 1]) && handle.next == handle
              && (nodes == [] ==> handle.prev == head)
    {
      ghost var n := |nodes| - 1;
      assert Linked(n) && (n > 0 ==> Linked(n - 1));
      var prevp := handle.prev;
      head.prev := prevp;
      prevp.next, handle.next := handle.next, prevp.next;
      nodes, keys := Without(nodes, n), Without(keys, n);
      DistinctWithout(old(nodes), n);
      forall i | 0 <= i < |nodes| ensures Linked(i) {
        assert nodes[i] == old(nodes)[i] && keys[i] == old(keys)[i];
        assert old(Linked(i)) && Apart(old(nodes), i, n);
        assert i < n - 1 ==> Apart(old(nodes), i, n - 1);
      }
    }

    /** Second half: puts the node at the front of the chain. */
    method LinkFront(handle: LruNode<K>, ghost key: K)
      requires Chained() && handle !in nodes && handle != head && handle.next == handle && handle.data == Some(key)
      requires nodes == [] ==> handle.prev == head
      modifies this`nodes, this`keys, head, nodes, handle
      ensures Chained() && nodes == [handle] + old(nodes) && keys == [key] + old(keys)
    {
      assert nodes != [] ==> Linked(0);
      handle.next, head.next := head.next, handle.next;
      if handle.next != null {
        handle.prev := handle.next.prev;
        handle.next.prev := handle;
      } else {
        head.prev := handle;
      }
      nodes, keys := [handle] + nodes, [key] + keys;
      DistinctCons(old(nodes), handle);
      forall i | 0 <= i < |nodes| ensures Linked(i) {
        assert i > 0 ==> old(Linked(i - 1));
        assert i > 1 ==> Apart(old(nodes), 0, i - 1);
      }
    }

    /** Moves the node at position `k` to the front. */
    method ReinsertFront(handle: LruNode<K>, ghost k: nat)
      requires Valid() && k < |nodes| && handle == nodes[k]
      modifies this, head, nodes
      ensures Valid() && nodes == [handle] + Without(old(nodes), k) && keys == [old(keys)[k]] + Without(old(keys), k)
    {
      ghost var key := keys[k];
      Unlink(handle, k);
      LinkFront(handle, key);
    }
  }

  // ----- the recency order

  ghost function Remove<K>(r: seq<K>, k: K): seq<K> {
    if r == [] then [] else if r[0] == k then r[1..] else [r[0]] + Remove(r[1..], k)
  }

  /** A key used again moves to the front. */
  ghost function Touched<K>(r: seq<K>, k: K): seq<K> {
    if k in r then [k] + Remove(r, k) else r
  }

  /** A new key goes to the front; at capacity, the last one goes. */
  ghost function Inserted<K>(r: seq<K>, k: K, cap: nat): seq<K> {
    [k] + if |r| >= cap && r != [] then r[..|r| - 1] else r
  }

  lemma {:induction false} RemoveIsWithout<K>(r: seq<K>, i: nat)
    requires i < |r| && Distinct(r)
    ensures Remove(r, r[i]) == Without(r, i)
    decreases r
  {
    if i > 0 {
      assert Apart(r, 0, i);
      DistinctTail(r);
      hide Distinct;
      RemoveIsWithout(r[1..], i - 1);
      assert Without(r, i) == [r[0]] + Without(r[1..], i - 1);
    }
  }

  /** The map holds exactly the listed keys, each with the handle of its node. */
  ghost predicate Indexed<K, T>(keys: seq<K>, nodes: seq<LruNode<K>>, entries: map<K, (T, LruNode<K>)>) {
    && |keys| == |nodes| && Distinct(keys)
    && (forall i :: 0 <= i < |keys| ==> keys[i] in entries && entries[keys[i]].1 == nodes[i])
    && (forall k :: k in entries ==> k in keys)
  }

  lemma IndexedEvict<K, T>(keys: seq<K>, nodes: seq<LruNode<K>>, entries: map<K, (T, LruNode<K>)>)
    requires Indexed(keys, nodes, entries) && keys != []
    ensures var n := |keys| - 1; keys[n] in entries && Indexed(keys[..n], nodes[..n], entries - {keys[n]})
  {
    var n := |keys| - 1;
    DistinctPrefix(keys, n);
    forall i | 0 <= i < n ensures keys[i] != keys[n] {
      assert Apart(keys, i, n);
    }
    forall k | k in entries - {keys[n]} ensures k in keys[..n] {
      var i :| 0 <= i < |keys| && keys[i] == k;
      assert keys[..n][i] == k;
    }
  }

  lemma IndexedInsert<K, T>(keys: seq<K>, nodes: seq<LruNode<K>>, entries: map<K, (T, LruNode<K>)>, k: K, v: T,
                            n: LruNode<K>)
    requires Indexed(keys, nodes, entries) && k !in entries
    ensures Indexed([k] + keys, [n] + nodes, entries[k := (v, n)])
  {
    DistinctCons(keys, k);
    hide Distinct;
    var entries' := entries[k := (v, n)];
    assert forall x :: x in entries' ==> x == k || x in entries;
  }

  lemma IndexedTouch<K, T>(keys: seq<K>, nodes: seq<LruNode<K>>, entries: map<K, (T, LruNode<K>)>, j: nat)
    requires Indexed(keys, nodes, entries) && j < |keys|
    ensures Indexed([keys[j]] + Without(keys, j), [nodes[j]] + Without(nodes, j), entries)
  {
    hide Distinct;
    DistinctWithout(keys, j);
    DistinctCons(Without(keys, j), keys[j]);
    var keys', nodes' := [keys[j]] + Without(keys, j), [nodes[j]] + Without(nodes, j);
    forall i | 0 <= i < |keys| ensures keys'[i] in entries && entries[keys'[i]].1 == nodes'[i] {
      var o := if i == 0 then j else if i <= j then i - 1 else i;
      assert keys'[i] == keys[o] && nodes'[i] == nodes[o];
    }
  }

  lemma Untouched<K, T>(keys: seq<K>, nodes: seq<LruNode<K>>, entries: map<K, (T, LruNode<K>)>, key: K)
    requires Indexed(keys, nodes, entries) && key !in entries
    ensures Touched(keys, key) == keys
  {
  }

  lemma Position<K, T>(keys: seq<K>, nodes: seq<LruNode<K>>, entries: map<K, (T, LruNode<K>)>, key: K) returns (k: nat)
    requires Indexed(keys, nodes, entries) && key in entries
    ensures k < |keys| == |nodes| && keys[k] == key && entries[key].1 == nodes[k]
            && Touched(keys, key) == [key] + Without(keys, k)
  {
    k :| 0 <= k < |keys| && keys[k] == key;
    RemoveIsWithout(keys, k);
  }

  /** What stays cached when a full cache makes room. */
  ghost function Retained<K, T>(values: map<K, T>, keys: seq<K>, cap: nat): map<K, T> {
    if |keys| >= cap && keys != [] then values - {keys[|keys| - 1]} else values
  }

  lemma DuplicateNotIndexed<K, T>(keys: seq<K>, nodes: seq<LruNode<K>>, entries: map<K, (T, LruNode<K>)>)
    requires keys != [] && keys[0] in keys[1..]
    ensures !Indexed(keys, nodes, entries)
  {
    var j :| 0 <= j < |keys[1..]| && keys[1..][j] == keys[0];
    assert keys[j + 1] == keys[0];
    assert !Apart(keys, 0, j + 1);
  }

  lemma NotListed<K, T>(keys: seq<K>, nodes: seq<LruNode<K>>, entries: map<K, (T, LruNode<K>)>, key: K)
    requires Indexed(keys, nodes, entries) && key !in keys
    ensures key !in entries
  {
  }

  /** With one more key in front, list and map still agree exactly if the key is not listed twice. */
  lemma StaysIndexed<K, T>(keys: seq<K>, nodes: seq<LruNode<K>>, entries: map<K, (T, LruNode<K>)>, key: K, elem: T,
                           handle: LruNode<K>)
    requires Indexed(keys, nodes, entries)
    ensures Indexed([key] + keys, [handle] + nodes, entries[key := (elem, handle)]) <==> key !in keys
  {
    if key in keys {
      DuplicateNotIndexed([key] + keys, [handle] + nodes, entries[key := (elem, handle)]);
    } else {
      NotListed(keys, nodes, entries, key);
      IndexedInsert(keys, nodes, entries, key, elem, handle);
    }
  }

  class Cache<K(==), T> {
    const list: LruList<K>
    const cap: nat
    var entries: map<K, (T, LruNode<K>)>

    ghost predicate Valid()
      reads this, list, list.head, list.nodes
    {
      Sound() && Indexed(list.keys, list.nodes, entries)
    }

    /** The list is good and fits, whether or not its keys are those with values. */
    ghost predicate Sound()
      reads this, list, list.head, list.nodes
    {
      list.Valid() && 0 < cap && |list.keys| <= cap
    }

    ghost function Values(): map<K, T>
      reads this
    {
      map k | k in entries :: entries[k].0
    }

    constructor (capacity: nat)
      requires capacity > 0
      ensures Valid() && list.keys == [] && Values() == map[] && cap == capacity && fresh(list) && fresh(list.head)
    {
      list := new LruList<K>();
      cap := capacity;
      entries := map[];
    }

    /**
      Makes room in a full cache: the least recently used key goes, with its value. Fails if there is
      none for it.
     */
    method Evict() returns (ok: bool)
      requires Sound() && |list.keys| == cap
      modifies this, list, list.head, list.nodes
      ensures Sound() && list.keys == old(list.keys)[..cap - 1] && list.nodes == old(list.nodes)[..cap - 1]
      ensures ok <==> old(list.keys)[cap - 1] in old(Values())
      ensures Values() == old(Values()) - {old(list.keys)[cap - 1]}
      ensures old(Valid()) ==> ok && Valid()
    {
      hide Indexed;
      if Indexed(list.keys, list.nodes, entries) {
        IndexedEvict(list.keys, list.nodes, entries);
      }
      var removed := list.RemoveLast();
      ok := removed.value in entries;
      entries := entries - {removed.value};
    }

    /** Puts a key in front where there is room. */
    method PutFront(key: K, elem: T)
      requires Sound() && |list.keys| < cap
      modifies this, list, list.head, list.nodes
      ensures Sound() && list.keys == [key] + old(list.keys) && Values() == old(Values())[key := elem]
      ensures old(Valid()) ==> (Valid() <==> key !in old(list.keys))
      ensures forall j :: 0 <= j < |list.nodes| ==> list.nodes[j] in old(list.nodes) || fresh(list.nodes[j])
    {
      hide Indexed;
      ghost var keys, nodes, was := list.keys, list.nodes, entries;
      var handle := list.Insert(key);
      entries := entries[key := (elem, handle)];
      if Indexed(keys, nodes, was) {
        StaysIndexed(keys, nodes, was, key, elem, handle);
      }
    }

    /**
      Puts a key in front; when the cache is full the least recently used key is evicted first, which
      fails if that key has no value. The cache stays good exactly if the key is not, or no longer,
      cached then.
     */
    method Insert(key: K, elem: T) returns (ok: bool)
      requires Sound()
      modifies this, list, list.head, list.nodes
      ensures ok <==> |old(list.keys)| == cap ==> old(list.keys)[cap - 1] in old(Values())
      ensures ok ==> Sound() && list.keys == Inserted(old(list.keys), key, cap)
      ensures ok ==> Values() == Retained(old(Values()), old(list.keys), cap)[key := elem]
      ensures old(Valid()) ==> ok && (Valid() <==> key !in Inserted(old(list.keys), key, cap)[1..])
      ensures forall j :: 0 <= j < |list.nodes| ==> list.nodes[j] in old(list.nodes) || fresh(list.nodes[j])
    {
      hide Indexed, Distinct;
      ok := true;
      if list.count >= cap {
        ok := Evict();
        if !ok {
          return;
        }
      }
      PutFront(key, elem);
    }

    method Get(key: K) returns (r: Option<T>)
      requires Valid()
      modifies list, list.head, list.nodes
      ensures Valid() && list.keys == Touched(old(list.keys), key) && Values() == old(Values())
      ensures r == if key in Values() then Some(Values()[key]) else None
      ensures forall j :: 0 <= j < |list.nodes| ==> list.nodes[j] in old(list.nodes)
    {
      hide Indexed, Touched;
      if key !in entries {
        Untouched(list.keys, list.nodes, entries, key);
        return None;
      }
      ghost var k := Position(list.keys, list.nodes, entries, key);
      IndexedTouch(list.keys, list.nodes, entries, k);
      list.ReinsertFront(entries[key].1, k);
      r := Some(entries[key].0);
    }
  }

  // ----- over whole histories

  datatype Use<K> = Insertion(key: K) | Lookup(key: K)

  /** The recency order after a history of uses of a cache of the given capacity. */
  ghost function Recency<K>(h: seq<Use<K>>, cap: nat): seq<K> {
    if h == [] then []
    else
      var r, use := Recency(h[..|h| - 1], cap), h[|h| - 1];
      match use
      case Insertion(k) => Inserted(r, k, cap)
      case Lookup(k) => Touched(r, k)
  }

  /** Only absent keys are inserted. */
  ghost predicate InsertsAbsent<K>(h: seq<Use<K>>, cap: nat) {
    h == [] ||
    (InsertsAbsent(h[..|h| - 1], cap) && (h[|h| - 1].Insertion? ==> h[|h| - 1].key !in Recency(h[..|h| - 1], cap)))
  }

  /** When a key was last used: one more than the position of its last use, 0 if it never was. */
  ghost function LastUse<K>(h: seq<Use<K>>, k: K): nat {
    if h == [] then 0 else if h[|h| - 1].key == k then |h| else LastUse(h[..|h| - 1], k)
  }

  ghost predicate ByLastUse<K>(h: seq<Use<K>>, r: seq<K>) {
    forall i, j {:trigger LastUse(h, r[i]), LastUse(h, r[j])} :: 0 <= i < j < |r| ==>
        LastUse(h, r[i]) > LastUse(h, r[j])
  }

  lemma {:induction false} LastUseBound<K>(h: seq<Use<K>>, k: K)
    ensures LastUse(h, k) <= |h|
  {
    if h != [] {
      LastUseBound(h[..|h| - 1], k);
    }
  }

  lemma RemoveKeepsOrder<K>(h: seq<Use<K>>, r: seq<K>, k: K)
    requires ByLastUse(h, r) && k in r
    ensures ByLastUse(h, Remove(r, k)) && |Remove(r, k)| == |r| - 1 && k !in Remove(r, k)
    ensures forall x :: x in Remove(r, k) ==> x in r
    decreases r
  {
    forall i, j | 0 <= i < |r| && 0 <= j < |r| && i != j ensures Apart(r, i, j) {
      if i < j { assert LastUse(h, r[i]) > LastUse(h, r[j]); } else { assert LastUse(h, r[j]) > LastUse(h, r[i]); }
    }
    var i :| 0 <= i < |r| && r[i] == k;
    RemoveIsWithout(r, i);
    DistinctWithout(r, i);
    hide Distinct, Remove;
    var w := Without(r, i);
    forall a, b | 0 <= a < b < |w| ensures LastUse(h, w[a]) > LastUse(h, w[b]) {
      var a', b' := if a < i then a else a + 1, if b < i then b else b + 1;
      assert w[a] == r[a'] && w[b] == r[b'];
      assert LastUse(h, r[a']) > LastUse(h, r[b']);
    }
  }

  /**
    The list of a cache is always its keys from the most to the least recently used, no more than
    its capacity, so the key an insertion into a full cache evicts is the one unused for longest.
   */
  lemma {:induction false} RecencyIsByLastUse<K>(h: seq<Use<K>>, cap: nat)
    requires cap > 0 && InsertsAbsent(h, cap)
    ensures ByLastUse(h, Recency(h, cap)) && |Recency(h, cap)| <= cap
  {
    if h != [] {
      var h0, use := h[..|h| - 1], h[|h| - 1];
      RecencyIsByLastUse(h0, cap);
      var r := Recency(h0, cap);
      match use {
        case Insertion(k) =>
          var kept := if |r| >= cap then r[..|r| - 1] else r;
          UsedNow(h, kept);
        case Lookup(k) =>
          if k in r {
            RemoveKeepsOrder(h0, r, k);
            UsedNow(h, Remove(r, k));
          } else {
            StillOrdered(h, r);
          }
      }
    }
  }

  /** Uses of other keys do not change the order of `r`. */
  lemma StillOrdered<K>(h: seq<Use<K>>, r: seq<K>)
    requires h != [] && h[|h| - 1].key !in r && ByLastUse(h[..|h| - 1], r)
    ensures ByLastUse(h, r)
  {
    var h0 := h[..|h| - 1];
    forall i, j | 0 <= i < j < |r| ensures LastUse(h, r[i]) > LastUse(h, r[j]) {
      assert LastUse(h0, r[i]) > LastUse(h0, r[j]);
    }
  }

  lemma UsedNow<K>(h: seq<Use<K>>, r: seq<K>)
    requires h != [] && h[|h| - 1].key !in r && ByLastUse(h[..|h| - 1], r)
    ensures ByLastUse(h, [h[|h| - 1].key] + r)
  {
    var h0, k := h[..|h| - 1], h[|h| - 1].key;
    var all := [k] + r;
    StillOrdered(h, r);
    forall i, j | 0 <= i < j < |all| ensures LastUse(h, all[i]) > LastUse(h, all[j]) {
      if i == 0 {
        LastUseBound(h0, all[j]);
      } else {
        assert LastUse(h, r[i - 1]) > LastUse(h, r[j - 1]);
      }
    }
  }

  ghost function Used<K>(r: seq<K>, use: Use<K>, cap: nat): seq<K> {
    match use
    case Insertion(k) => Inserted(r, k, cap)
    case Lookup(k) => Touched(r, k)
  }

  /** One use of a cache; only absent keys are inserted. */
  method UseOnce<K(==), T>(cache: Cache<K, T>, use: Use<K>, elem: T)
    requires cache.Valid() && (use.Insertion? ==> use.key !in Inserted(cache.list.keys, use.key, cache.cap)[1..])
    modifies cache, cache.list, cache.list.head, cache.list.nodes
    ensures cache.Valid() && cache.list.keys == Used(old(cache.list.keys), use, cache.cap)
    ensures forall j :: 0 <= j < |cache.list.nodes| ==>
            cache.list.nodes[j] in old(cache.list.nodes) || fresh(cache.list.nodes[j])
  {
    hide Inserted, Touched, Indexed, Distinct;
    match use {
      case Insertion(k) => var _ := cache.Insert(k, elem);
      case Lookup(k) => var _ := cache.Get(k);
    }
  }

  /** A cache that runs a history of uses lists its keys from the most to the least recently used. */
  method RunHistory<K(==), T>(cap: nat, h: seq<Use<K>>, elem: T) returns (cache: Cache<K, T>)
    requires cap > 0 && InsertsAbsent(h, cap)
    ensures cache.Valid() && cache.cap == cap && cache.list.keys == Recency(h, cap) && ByLastUse(h, cache.list.keys)
  {
    hide Recency, InsertsAbsent, Inserted, Used, Indexed, Distinct, ByLastUse;
    cache := new Cache<K, T>(cap);
    HistoryStarts(h, cap);
    for i := 0 to |h|
      invariant cache.Valid() && cache.cap == cap && cache.list.keys == Recency(h[..i], cap)
      invariant fresh(cache) && fresh(cache.list) && fresh(cache.list.head)
      invariant forall j :: 0 <= j < |cache.list.nodes| ==> fresh(cache.list.nodes[j])
    {
      HistoryStep(h, i, cap);
      UseOnce(cache, h[i], elem);
    }
    assert h[..|h|] == h;
    RecencyIsByLastUse(h, cap);
  }

  lemma HistoryStarts<K>(h: seq<Use<K>>, cap: nat)
    ensures Recency(h[..0], cap) == []
  {
  }

  lemma HistoryStep<K>(h: seq<Use<K>>, i: nat, cap: nat)
    requires cap > 0 && InsertsAbsent(h, cap) && i < |h|
    ensures Recency(h[..i + 1], cap) == Used(Recency(h[..i], cap), h[i], cap)
    ensures h[i].Insertion? ==> h[i].key !in Inserted(Recency(h[..i], cap), h[i].key, cap)[1..]
  {
    assert h[..i + 1][..i] == h[..i];
    AbsentPrefix(h, i + 1, cap);
  }

  lemma {:induction false} AbsentPrefix<K>(h: seq<Use<K>>, n: nat, cap: nat)
    requires InsertsAbsent(h, cap) && n <= |h|
    ensures InsertsAbsent(h[..n], cap)
    decreases |h|
  {
    if n < |h| {
      AbsentPrefix(h[..|h| - 1], n, cap);
      assert h[..|h| - 1][..n] == h[..n];
    } else {
      assert h[..n] == h;
    }
  }

  /** A key inserted twice is listed twice. */
  method InsertTwice<T>(elem: T) returns (cache: Cache<nat, T>)
    ensures fresh(cache) && fresh(cache.list) && fresh(cache.list.head) && cache.Sound() && cache.cap == 2
    ensures forall j :: 0 <= j < |cache.list.nodes| ==> fresh(cache.list.nodes[j])
    ensures cache.list.keys == [1, 1] && cache.Values() == map[1 := elem]
  {
    hide Indexed, Distinct;
    cache := new Cache<nat, T>(2);
    var ok := cache.Insert(1, elem);
    assert cache.list.keys == [1];
    ok := cache.Insert(1, elem);
    assert cache.list.keys == [1, 1];
  }

  /** A key inserted twice, then two others into a cache for two: the last insertion fails to evict. */
  method FailsToEvict<T>(elem: T) returns (ok: bool)
    ensures !ok
  {
    hide Indexed, Distinct;
    var cache := InsertTwice(elem);
    ok := cache.Insert(2, elem);
    assert cache.list.keys == [2, 1] && cache.Values() == map[2 := elem];
    ok := cache.Insert(3, elem);
  }
}
