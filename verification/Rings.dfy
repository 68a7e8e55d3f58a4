/** Circular doubly linked lists whose nodes live in a pool. The members of a ring are
    named by keys; an index array leads from a key to the node's slot. */
module Rings {
  import opened MemPools

  datatype Node<V> = Node(value: V, prev: int, next: int)

  type Store<V> = seq<Block<Node<V>>>

  function Next(j: nat, n: nat): (k: nat)
    requires j < n
    ensures k < n
  {
    if j + 1 == n then 0 else j + 1
  }

  function Prev(j: nat, n: nat): (k: nat)
    requires j < n
    ensures k < n
    ensures Next(k, n) == j
  {
    if j == 0 then n - 1 else j - 1
  }

  ghost predicate IsNode<V>(store: Store<V>, slot: int) {
    0 <= slot < |store| && store[slot].Live?
  }

  ghost predicate Keyed<V>(store: Store<V>, index: seq<int>, key: int) {
    0 <= key < |index| && IsNode(store, index[key])
  }

  ghost predicate AllKeyed<V>(store: Store<V>, index: seq<int>, keys: seq<int>) {
    forall i :: 0 <= i < |keys| ==> Keyed(store, index, keys[i])
  }

  /** Node `a` links back to `u` and on to `t`. */
  ghost predicate Links<V>(store: Store<V>, a: int, u: int, t: int) {
    IsNode(store, a) && store[a].value.prev == u && store[a].value.next == t
  }

  /** The node of the `j`th key links to the nodes of its two neighbours. */
  ghost predicate Linked<V>(store: Store<V>, index: seq<int>, keys: seq<int>, j: nat)
    requires j < |keys| && AllKeyed(store, index, keys)
  {
    assert Keyed(store, index, keys[j]);
    assert Keyed(store, index, keys[Prev(j, |keys|)]) && Keyed(store, index, keys[Next(j, |keys|)]);
    Links(store, index[keys[j]], index[keys[Prev(j, |keys|)]], index[keys[Next(j, |keys|)]])
  }

  ghost predicate Ring<V>(store: Store<V>, index: seq<int>, keys: seq<int>) {
    && AllKeyed(store, index, keys)
    && (forall i, j :: 0 <= i < j < |keys| ==> index[keys[i]] != index[keys[j]])
    && (forall j :: 0 <= j < |keys| ==> Linked(store, index, keys, j))
  }

  /** Slot `i` after node `s` is put between the nodes `u` and `t`. */
  ghost function SplicedBlock<V>(block: Block<Node<V>>, i: int, s: int, u: int, t: int): Block<Node<V>> {
    if !block.Live? then block
    else Live(Node(block.value.value,
                   if i == t then s else if i == s then u else block.value.prev,
                   if i == u then s else if i == s then t else block.value.next))
  }

  ghost predicate Spliced<V>(store: Store<V>, store': Store<V>, s: int, u: int, t: int) {
    && |store'| == |store| && IsNode(store, s) && IsNode(store, u) && IsNode(store, t)
    && (forall i :: 0 <= i < |store| ==> store'[i] == SplicedBlock(store[i], i, s, u, t))
  }

  /** Node `s` is put into the ring of `keys` as its `k`th member. */
  ghost predicate Inserted<V>(store: Store<V>, store': Store<V>, index: seq<int>, keys: seq<int>, k: nat, s: int) {
    && keys != [] && k <= |keys|
    && var u, t := keys[if k == 0 then |keys| - 1 else k - 1], keys[if k == |keys| then 0 else k];
       0 <= u < |index| && 0 <= t < |index| && Spliced(store, store', s, index[u], index[t])
  }

  /** Slot `i` after the nodes `u` and `t` are linked to each other. */
  ghost function JoinedBlock<V>(block: Block<Node<V>>, i: int, u: int, t: int): Block<Node<V>> {
    if !block.Live? then block
    else Live(Node(block.value.value, if i == t then u else block.value.prev, if i == u then t else block.value.next))
  }

  /** `store'` is `store` with the neighbours of node `s` linked to each other; what is left
      in slot `s` does not matter. */
  ghost predicate Bypassed<V>(store: Store<V>, store': Store<V>, s: int) {
    && |store'| == |store| && IsNode(store, s)
    && (forall i :: 0 <= i < |store| && i != s ==>
          store'[i] == JoinedBlock(store[i], i, store[s].value.prev, store[s].value.next))
  }

  ghost function InsertAt<T>(keys: seq<T>, k: nat, key: T): seq<T>
    requires k <= |keys|
  {
    keys[..k] + [key] + keys[k..]
  }

  ghost function DropAt<T>(keys: seq<T>, k: nat): seq<T>
    requires k < |keys|
  {
    keys[..k] + keys[k + 1..]
  }

  /** A node spliced in front of the `k`th member, or at the end, is the `k`th member. */
  lemma SplicedRing<V>(store: Store<V>, store': Store<V>, index: seq<int>, index': seq<int>,
                       keys: seq<int>, keys': seq<int>, k: nat, key: int, s: int)
    requires Ring(store, index, keys) && k <= |keys| && keys' == InsertAt(keys, k, key)
    requires 0 <= key < |index| && key !in keys && index' == index[key := s]
    requires forall i :: 0 <= i < |keys| ==> index[keys[i]] != s
    requires Inserted(store, store', index, keys, k, s)
    ensures Ring(store', index', keys')
  {
    hide Linked, Inserted;
    var n := |keys|;
    var f := (j: int) => if j < k then j else j - 1;
    assert forall j :: 0 <= j <= n && j != k ==> keys'[j] == keys[f(j)] && index'[keys'[j]] == index[keys[f(j)]];
    forall j | 0 <= j <= n
      ensures Keyed(store', index', keys'[j])
    {
      SplicedKeyed(store, store', index, index', keys, k, key, s, keys'[j]);
    }
    assert index'[keys'[k]] == s;
    forall i, j | 0 <= i < j <= n
      ensures index'[keys'[i]] != index'[keys'[j]]
    {
      if i != k && j != k {
        assert index[keys[f(i)]] != index[keys[f(j)]];
      }
    }
    forall j | 0 <= j <= n
      ensures Linked(store', index', keys', j)
    {
      SplicedLinked(store, store', index, index', keys, keys', k, key, s, j);
    }
  }

  lemma SplicedKeyed<V>(store: Store<V>, store': Store<V>, index: seq<int>, index': seq<int>,
                        keys: seq<int>, k: nat, key: int, s: int, x: int)
    requires Ring(store, index, keys)
    requires 0 <= key < |index| && key !in keys && index' == index[key := s]
    requires Inserted(store, store', index, keys, k, s)
    requires x in keys || x == key
    ensures Keyed(store', index', x)
  {
    hide Linked;
    if x != key {
      var i :| 0 <= i < |keys| && keys[i] == x;
      assert Keyed(store, index, keys[i]);
    }
  }

  lemma SplicedLinked<V>(store: Store<V>, store': Store<V>, index: seq<int>, index': seq<int>,
                         keys: seq<int>, keys': seq<int>, k: nat, key: int, s: int, j: nat)
    requires Ring(store, index, keys) && k <= |keys| && j <= |keys| && keys' == InsertAt(keys, k, key)
    requires 0 <= key < |index| && key !in keys && index' == index[key := s]
    requires forall i :: 0 <= i < |keys| ==> index[keys[i]] != s
    requires Inserted(store, store', index, keys, k, s)
    requires AllKeyed(store', index', keys')
    ensures Linked(store', index', keys', j)
  {
    hide Links, Spliced, Keyed;
    var n := |keys|;
    var slots := RingSlots(store, index, keys);
    assert forall i :: 0 <= i <= n ==> index'[keys'[i]] == InsertAt(slots, k, s)[i];
    SplicedLink(store, store', slots, k, s, j);
  }

  /** The slots of a ring's nodes, in ring order. */
  lemma RingSlots<V>(store: Store<V>, index: seq<int>, keys: seq<int>) returns (slots: seq<int>)
    requires Ring(store, index, keys)
    ensures |slots| == |keys|
    ensures forall i :: 0 <= i < |keys| ==> 0 <= keys[i] < |index| && slots[i] == index[keys[i]]
    ensures SlotRing(store, slots)
  {
    assert forall i :: 0 <= i < |keys| ==> Keyed(store, index, keys[i]);
    slots := seq(|keys|, i requires 0 <= i < |keys| => index[keys[i]]);
    forall j | 0 <= j < |slots|
      ensures SlotLinked(store, slots, j)
    {
      assert Linked(store, index, keys, j);
    }
  }

  ghost predicate SlotRing<V>(store: Store<V>, slots: seq<int>) {
    && (forall i, j :: 0 <= i < j < |slots| ==> slots[i] != slots[j])
    && (forall j :: 0 <= j < |slots| ==> SlotLinked(store, slots, j))
  }

  ghost predicate SlotLinked<V>(store: Store<V>, slots: seq<int>, j: nat)
    requires j < |slots|
  {
    Links(store, slots[j], slots[Prev(j, |slots|)], slots[Next(j, |slots|)])
  }

  lemma RingLink<V>(store: Store<V>, slots: seq<int>, i: nat)
    requires SlotRing(store, slots) && i < |slots|
    ensures Links(store, slots[i], slots[Prev(i, |slots|)], slots[Next(i, |slots|)])
  {
    assert SlotLinked(store, slots, i);
  }

  /** The members next to the new one have it for a neighbour, the others keep theirs. */
  lemma InsertedNeighbours(slots: seq<int>, k: nat, s: int, j: nat)
    requires slots != [] && k <= |slots| && j <= |slots|
    ensures var n, slots' := |slots|, InsertAt(slots, k, s);
            var u, t := if k == 0 then n - 1 else k - 1, if k == n then 0 else k;
            var next, prev := slots'[Next(j, n + 1)], slots'[Prev(j, n + 1)];
            if j == k then slots'[j] == s && next == slots[t] && prev == slots[u]
            else
              var i := if j < k then j else j - 1;
              && slots'[j] == slots[i]
              && next == (if i == u then s else slots[Next(i, n)])
              && prev == (if i == t then s else slots[Prev(i, n)])
  {
  }

  lemma SameSlot<V>(store: Store<V>, slots: seq<int>, i: nat, j: nat)
    requires SlotRing(store, slots) && i < |slots| && j < |slots|
    ensures slots[i] == slots[j] <==> i == j
  {
    assert forall a, b :: 0 <= a < b < |slots| ==> slots[a] != slots[b];
  }

  lemma SplicedLink<V>(store: Store<V>, store': Store<V>, slots: seq<int>, k: nat, s: int, j: nat)
    requires SlotRing(store, slots) && slots != [] && k <= |slots| && j <= |slots| && s !in slots
    requires Spliced(store, store', s, slots[if k == 0 then |slots| - 1 else k - 1],
                     slots[if k == |slots| then 0 else k])
    ensures var slots', n' := InsertAt(slots, k, s), |slots| + 1;
            Links(store', slots'[j], slots'[Prev(j, n')], slots'[Next(j, n')])
  {
    var n := |slots|;
    var ku, kt := if k == 0 then n - 1 else k - 1, if k == n then 0 else k;
    InsertedNeighbours(slots, k, s, j);
    hide InsertAt;
    assert IsNode(store, s) && store'[s] == SplicedBlock(store[s], s, s, slots[ku], slots[kt]);
    if j != k {
      var i := if j < k then j else j - 1;
      RingLink(store, slots, i);
      SameSlot(store, slots, i, ku);
      SameSlot(store, slots, i, kt);
      assert store'[slots[i]] == SplicedBlock(store[slots[i]], slots[i], s, slots[ku], slots[kt]);
      assert slots[i] != s;
    } else {
      assert slots[ku] in slots && slots[kt] in slots;
    }
  }

  lemma BypassedLink<V>(store: Store<V>, store': Store<V>, slots: seq<int>, k: nat, j: nat)
    requires SlotRing(store, slots) && k < |slots| && j < |slots| - 1
    requires Bypassed(store, store', slots[k])
    ensures var slots', n' := DropAt(slots, k), |slots| - 1;
            Links(store', slots'[j], slots'[Prev(j, n')], slots'[Next(j, n')])
  {
    var n := |slots|;
    var i := if j < k then j else j + 1;
    DroppedNeighbours(slots, k, j);
    hide DropAt;
    RingLink(store, slots, k);
    RingLink(store, slots, i);
    SameSlot(store, slots, i, k);
    SameSlot(store, slots, i, Next(k, n));
    SameSlot(store, slots, i, Prev(k, n));
    assert store'[slots[i]] == JoinedBlock(store[slots[i]], slots[i], slots[Prev(k, n)], slots[Next(k, n)]);
  }

  /** The neighbours of the member dropped become neighbours, the others keep theirs. */
  lemma DroppedNeighbours(slots: seq<int>, k: nat, j: nat)
    requires k < |slots| && j < |slots| - 1
    ensures var n, slots' := |slots|, DropAt(slots, k);
            var i := if j < k then j else j + 1;
            && slots'[j] == slots[i]
            && slots'[Next(j, n - 1)] == (if i == Prev(k, n) then slots[Next(k, n)] else slots[Next(i, n)])
            && slots'[Prev(j, n - 1)] == (if i == Next(k, n) then slots[Prev(k, n)] else slots[Prev(i, n)])
  {
  }

  /** Bypassing the `k`th node takes it out of the ring. */
  lemma BypassedRing<V>(store: Store<V>, store': Store<V>, index: seq<int>, index': seq<int>,
                        keys: seq<int>, keys': seq<int>, k: nat)
    requires Ring(store, index, keys) && k < |keys| && keys' == DropAt(keys, k)
    requires index' == index[keys[k] := NULL] && forall i, j :: 0 <= i < j < |keys| ==> keys[i] != keys[j]
    requires Bypassed(store, store', index[keys[k]])
    ensures Ring(store', index', keys')
  {
    hide Linked, Bypassed;
    var n := |keys|;
    var f := (j: int) => if j < k then j else j + 1;
    assert forall j :: 0 <= j < n - 1 ==> keys'[j] == keys[f(j)] && index'[keys'[j]] == index[keys[f(j)]];
    forall j | 0 <= j < n - 1
      ensures Keyed(store', index', keys'[j])
    {
      assert Keyed(store, index, keys[f(j)]);
      BypassedKeyed(store, store', index, keys, k, f(j));
    }
    assert forall i, j :: 0 <= i < j < n - 1 ==> index'[keys'[i]] != index'[keys'[j]];
    forall j | 0 <= j < n - 1
      ensures Linked(store', index', keys', j)
    {
      BypassedLinked(store, store', index, index', keys, keys', k, j);
    }
  }

  lemma BypassedKeyed<V>(store: Store<V>, store': Store<V>, index: seq<int>, keys: seq<int>, k: nat, j: nat)
    requires Ring(store, index, keys) && k < |keys| && j < |keys| && j != k
    requires Bypassed(store, store', index[keys[k]])
    ensures Keyed(store', index, keys[j]) && index[keys[j]] != index[keys[k]]
  {
    hide Linked;
    assert Keyed(store, index, keys[j]);
    assert index[keys[if j < k then j else k]] != index[keys[if j < k then k else j]];
  }

  lemma BypassedLinked<V>(store: Store<V>, store': Store<V>, index: seq<int>, index': seq<int>,
                          keys: seq<int>, keys': seq<int>, k: nat, j: nat)
    requires Ring(store, index, keys) && k < |keys| && j < |keys| - 1 && keys' == DropAt(keys, k)
    requires index' == index[keys[k] := NULL] && forall i, j :: 0 <= i < j < |keys| ==> keys[i] != keys[j]
    requires Bypassed(store, store', index[keys[k]])
    requires AllKeyed(store', index', keys')
    ensures Linked(store', index', keys', j)
  {
    hide Links, Bypassed, Keyed;
    var slots := RingSlots(store, index, keys);
    assert forall i :: 0 <= i < |keys| - 1 ==> index'[keys'[i]] == DropAt(slots, k)[i];
    BypassedLink(store, store', slots, k, j);
  }

  /** A ring whose nodes and index entries are untouched stays a ring. */
  lemma RingFrame<V>(store: Store<V>, store': Store<V>, index: seq<int>, index': seq<int>, keys: seq<int>)
    requires Ring(store, index, keys) && |store'| == |store| && |index'| == |index|
    requires forall i :: 0 <= i < |keys| ==>
               index'[keys[i]] == index[keys[i]]
               && SameLinks(store, store', index[keys[i]])
    ensures Ring(store', index', keys)
  {
    forall i | 0 <= i < |keys|
      ensures Keyed(store', index', keys[i]) && index'[keys[i]] == index[keys[i]]
    {
      assert Keyed(store, index, keys[i]);
    }
    forall j | 0 <= j < |keys|
      ensures Linked(store', index', keys, j)
    {
      assert Linked(store, index, keys, j);
    }
  }

  lemma RingStep<V>(store: Store<V>, index: seq<int>, keys: seq<int>, k: nat)
    requires Ring(store, index, keys) && k < |keys|
    ensures AllKeyed(store, index, keys) && Keyed(store, index, keys[k])
    ensures store[index[keys[k]]].value.next == index[keys[Next(k, |keys|)]]
    ensures store[index[keys[k]]].value.prev == index[keys[Prev(k, |keys|)]]
  {
    assert Linked(store, index, keys, k);
  }

  /** The neighbours of the `k`th node; it is its own neighbour exactly when it is alone. */
  lemma RingNeighbours<V>(store: Store<V>, index: seq<int>, keys: seq<int>, k: nat)
    requires Ring(store, index, keys) && k < |keys|
    ensures AllKeyed(store, index, keys) && Keyed(store, index, keys[k])
    ensures 0 <= keys[0] < |index| && 0 <= keys[Next(k, |keys|)] < |index|
    ensures var n, s := |keys|, index[keys[k]];
            && IsNode(store, store[s].value.prev) && IsNode(store, store[s].value.next)
            && store[s].value.next == index[keys[Next(k, n)]]
            && (store[s].value.next == s <==> n == 1)
            && (store[s].value.prev == s <==> n == 1)
            && (index[keys[0]] == s <==> k == 0)
  {
    hide Ring, Linked;
    RingStep(store, index, keys, k);
    RingDistinct(store, index, keys, k);
    var n := |keys|;
    assert Keyed(store, index, keys[0]);
    assert Keyed(store, index, keys[Next(k, n)]) && Keyed(store, index, keys[Prev(k, n)]);
  }

  ghost predicate SameLinks<V>(store: Store<V>, store': Store<V>, slot: int) {
    && IsNode(store, slot) && IsNode(store', slot)
    && store'[slot].value.prev == store[slot].value.prev && store'[slot].value.next == store[slot].value.next
  }

  lemma SingleRing<V>(store: Store<V>, index: seq<int>, key: int)
    requires Keyed(store, index, key)
    requires store[index[key]].value.prev == index[key] == store[index[key]].value.next
    ensures Ring(store, index, [key])
  {
    assert Linked(store, index, [key], 0);
  }

  // ----- pointer updates -----

  ghost function PrevSet<V>(store: Store<V>, slot: int, prev: int): (r: Store<V>)
    requires IsNode(store, slot)
    ensures |r| == |store| && forall i :: 0 <= i < |r| ==> r[i].Live? == store[i].Live?
  {
    store[slot := Live(store[slot].value.(prev := prev))]
  }

  ghost function NextSet<V>(store: Store<V>, slot: int, next: int): (r: Store<V>)
    requires IsNode(store, slot)
    ensures |r| == |store| && forall i :: 0 <= i < |r| ==> r[i].Live? == store[i].Live?
  {
    store[slot := Live(store[slot].value.(next := next))]
  }

  /** The four assignments that link `s` in between `u` and `t`, in either order the code uses. */
  lemma FourAssignments<V>(store: Store<V>, s: int, u: int, t: int)
    requires IsNode(store, s) && IsNode(store, u) && IsNode(store, t) && s != u && s != t
    ensures Spliced(store, NextSet(NextSet(PrevSet(PrevSet(store, s, u), t, s), s, t), u, s), s, u, t)
    ensures Spliced(store, PrevSet(NextSet(NextSet(PrevSet(store, s, u), s, t), u, s), t, s), s, u, t)
    ensures Spliced(store, PrevSet(NextSet(PrevSet(NextSet(store, u, s), s, u), s, t), t, s), s, u, t)
  {
    forall i | 0 <= i < |store|
      ensures NextSet(NextSet(PrevSet(PrevSet(store, s, u), t, s), s, t), u, s)[i] == SplicedBlock(store[i], i, s, u, t)
    {
    }
    forall i | 0 <= i < |store|
      ensures PrevSet(NextSet(NextSet(PrevSet(store, s, u), s, t), u, s), t, s)[i] == SplicedBlock(store[i], i, s, u, t)
    {
    }
    forall i | 0 <= i < |store|
      ensures PrevSet(NextSet(PrevSet(NextSet(store, u, s), s, u), s, t), t, s)[i] == SplicedBlock(store[i], i, s, u, t)
    {
    }
  }

  method SetPrev<V>(pool: MemPool<Node<V>>, slot: int, prev: int)
    requires pool.Valid() && pool.IsLive(slot)
    modifies pool.storage
    ensures pool.Valid()
    ensures pool.storage[..] == PrevSet(old(pool.storage[..]), slot, prev)
    ensures forall s :: pool.IsLive(s) <==> old(pool.IsLive(s))
  {
    pool.Set(slot, pool.Get(slot).(prev := prev));
  }

  method SetNext<V>(pool: MemPool<Node<V>>, slot: int, next: int)
    requires pool.Valid() && pool.IsLive(slot)
    modifies pool.storage
    ensures pool.Valid()
    ensures pool.storage[..] == NextSet(old(pool.storage[..]), slot, next)
    ensures forall s :: pool.IsLive(s) <==> old(pool.IsLive(s))
  {
    pool.Set(slot, pool.Get(slot).(next := next));
  }

  /** Links `node` in behind `target`. */
  method LinkAfter<V>(pool: MemPool<Node<V>>, node: int, target: int)
    requires pool.Valid() && pool.IsLive(node) && pool.IsLive(target) && pool.IsLive(pool.Get(target).next)
    requires node != target && node != pool.Get(target).next && pool.Get(pool.Get(target).next).prev == target
    modifies pool.storage
    ensures pool.Valid()
    ensures Spliced(old(pool.storage[..]), pool.storage[..], node, target, old(pool.Get(target)).next)
  {
    hide MemPool.Valid, Spliced, FreeChain;
    var after := pool.Get(target).next;
    FourAssignments(pool.storage[..], node, target, after);
    SetPrev(pool, node, target);
    SetPrev(pool, after, node);
    SetNext(pool, node, after);
    SetNext(pool, target, node);
  }

  /** Links `node` in in front of `target`. */
  method LinkBefore<V>(pool: MemPool<Node<V>>, node: int, target: int)
    requires pool.Valid() && pool.IsLive(node) && pool.IsLive(target) && pool.IsLive(pool.Get(target).prev)
    requires node != target && node != pool.Get(target).prev && pool.Get(pool.Get(target).prev).next == target
    modifies pool.storage
    ensures pool.Valid()
    ensures Spliced(old(pool.storage[..]), pool.storage[..], node, old(pool.Get(target)).prev, target)
  {
    hide MemPool.Valid, Spliced, FreeChain;
    FourAssignments(pool.storage[..], node, pool.Get(target).prev, target);
    SetPrev(pool, node, pool.Get(target).prev);
    SetNext(pool, node, target);
    SetNext(pool, pool.Get(target).prev, node);
    SetPrev(pool, target, node);
  }

  /** Links the neighbours of `node` to each other and clears its own links. */
  method Unlink<V>(pool: MemPool<Node<V>>, node: int)
    requires pool.Valid() && pool.IsLive(node)
    requires var n := pool.Get(node); pool.IsLive(n.prev) && pool.IsLive(n.next) && n.prev != node && n.next != node
    modifies pool.storage
    ensures pool.Valid() && pool.IsLive(node) && pool.Get(node).value == old(pool.Get(node)).value
    ensures Bypassed(old(pool.storage[..]), pool.storage[..], node)
  {
    var before, after := pool.Get(node).prev, pool.Get(node).next;
    SetNext(pool, before, after);
    SetPrev(pool, after, before);
    pool.Set(node, pool.Get(node).(prev := NULL, next := NULL));
  }

  lemma RingDistinct<V>(store: Store<V>, index: seq<int>, keys: seq<int>, k: nat)
    requires Ring(store, index, keys) && k < |keys|
    ensures AllKeyed(store, index, keys)
    ensures forall j :: 0 <= j < |keys| && j != k ==> index[keys[j]] != index[keys[k]]
  {
    hide Linked;
  }

  /** Returns every node of a ring to the pool, the head last. */
  method FreeRing<V>(pool: MemPool<Node<V>>, head: int, ghost index: seq<int>, ghost keys: seq<int>)
    requires pool.Valid() && keys != [] && Ring(pool.storage[..], index, keys) && head == index[keys[0]]
    modifies pool, pool.storage
    ensures pool.Valid() && pool.inUse == old(pool.inUse) - |keys|
    ensures forall s :: 0 <= s < pool.storage.Length && (forall j :: 0 <= j < |keys| ==> s != index[keys[j]])
              ==> pool.storage[s] == old(pool.storage[s])
  {
    hide MemPool.Valid, Ring;
    ghost var store, k := pool.storage[..], 1;
    RingStep(store, index, keys, 0);
    RingDistinct(store, index, keys, 0);
    var at := pool.Get(head).next;
    while at != head
      invariant pool.Valid() && 1 <= k <= |keys| && at == index[keys[if k == |keys| then 0 else k]]
      invariant pool.inUse == old(pool.inUse) - (k - 1)
      invariant pool.storage[head] == store[head]
      invariant forall j :: k <= j < |keys| ==> pool.storage[index[keys[j]]] == store[index[keys[j]]]
      invariant forall s :: 0 <= s < |store| && (forall j :: 0 <= j < |keys| ==> s != index[keys[j]])
                  ==> pool.storage[s] == store[s]
      decreases |keys| - k
    {
      RingStep(store, index, keys, k);
      RingDistinct(store, index, keys, k);
      var next := pool.Get(at).next;
      pool.Deallocate(at);
      at := next;
      k := k + 1;
    }
    pool.Deallocate(head);
  }
}
