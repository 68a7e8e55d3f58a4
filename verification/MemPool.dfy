/** Fixed-capacity object pool with an intrusive free list and a bump cursor.
    A pointer handed out by the pool is the index of a slot of `storage`. */
module MemPools {

  /** The null pointer. */
  const NULL: int := -1

  /** One slot. A freed slot stores the free-list link in the object's own space. */
  datatype Block<T> = Untouched | Live(value: T) | Free(nextFree: int)

  /** `list` is the free chain that starts at `head`: each link leads to the next
      entry, no slot occurs twice, and every free slot is on it. */
  ghost predicate FreeChain<T>(store: seq<Block<T>>, head: int, list: seq<int>) {
    && head == (if list == [] then NULL else list[0])
    && (forall i :: 0 <= i < |list| ==> 0 <= list[i] < |store| && store[list[i]].Free?)
    && (forall i, j :: 0 <= i < j < |list| && j == i + 1 ==> store[list[i]].nextFree == list[j])
    && (list != [] ==> store[list[|list| - 1]].nextFree == NULL)
    && (forall i, j :: 0 <= i < j < |list| ==> list[i] != list[j])
    && (forall s :: 0 <= s < |store| && store[s].Free? ==> s in list)
  }

  lemma ChainHead<T>(store: seq<Block<T>>, head: int, list: seq<int>)
    requires FreeChain(store, head, list)
    ensures if head == NULL then list == []
            else list != [] && head == list[0] && 0 <= head < |store| && store[head].Free?
  {
  }

  lemma PopFree<T>(store: seq<Block<T>>, head: int, list: seq<int>, block: Block<T>)
    requires FreeChain(store, head, list) && list != [] && !block.Free?
    ensures FreeChain(store[head := block], store[head].nextFree, list[1..])
  {
    var store', list' := store[head := block], list[1..];
    forall s | 0 <= s < |store'| && store'[s].Free?
      ensures s in list'
    {
      var i :| 0 <= i < |list| && list[i] == s;
      assert list'[i - 1] == s;
    }
  }

  lemma TakeFresh<T>(store: seq<Block<T>>, head: int, list: seq<int>, slot: int, block: Block<T>)
    requires FreeChain(store, head, list) && list == []
    requires 0 <= slot < |store| && !block.Free?
    ensures FreeChain(store[slot := block], head, list)
  {
  }

  lemma PushFree<T>(store: seq<Block<T>>, head: int, list: seq<int>, slot: int)
    requires FreeChain(store, head, list) && 0 <= slot < |store| && !store[slot].Free?
    ensures FreeChain(store[slot := Free(head)], slot, [slot] + list)
  {
  }

  ghost function LiveSlots<T>(store: seq<Block<T>>): set<int> {
    set s | 0 <= s < |store| && store[s].Live?
  }

  class MemPool<T> {
    const storage: array<Block<T>>
    var nextUnused: nat
    var freeHead: int
    var inUse: nat

    /** The free list, first slot to be reused first. */
    ghost var freeList: seq<int>
    /** The value of `inUse` at construction and after every operation since. */
    ghost var history: seq<nat>

    ghost predicate Valid()
      reads this, storage
    {
      && nextUnused <= storage.Length
      && FreeChain(storage[..], freeHead, freeList)
      && (forall s :: 0 <= s < storage.Length ==> (storage[s].Untouched? <==> nextUnused <= s))
      && inUse + |freeList| == nextUnused
      && |history| > 0 && history[|history| - 1] == inUse
      && (forall i :: 0 <= i < |history| ==> history[i] <= nextUnused)
      && nextUnused in history
    }

    predicate Exhausted()
      reads this
    {
      freeHead == NULL && nextUnused >= storage.Length
    }

    predicate IsLive(slot: int)
      reads storage
    {
      0 <= slot < storage.Length && storage[slot].Live?
    }

    /** The bump cursor: the largest number of objects that were ever in use at once. */
    function HighWater(): (peak: nat)
      requires Valid()
      reads this, storage
      ensures peak in history && forall i :: 0 <= i < |history| ==> history[i] <= peak
    {
      nextUnused
    }

    /** The slots that hold no object; there are none exactly when the pool is exhausted. */
    function Available(): (n: nat)
      requires Valid()
      reads this, storage
      ensures n + |LiveSlots(storage[..])| == storage.Length
      ensures n == 0 <==> Exhausted()
    {
      InUseCountsLiveSlots(this);
      storage.Length - inUse
    }

    constructor (capacity: nat)
      ensures Valid() && fresh(storage)
      ensures storage.Length == capacity && inUse == 0
      ensures forall s :: 0 <= s < capacity ==> storage[s].Untouched?
    {
      storage := new Block<T>[capacity](_ => Untouched);
      nextUnused, freeHead, inUse := 0, NULL, 0;
      freeList, history := [], [0];
    }

    /** Hands out a slot that no live object occupies; a recycled slot goes first. */
    method Allocate(value: T) returns (slot: int)
      requires Valid() && !Exhausted()
      modifies this, storage
      ensures Valid()
      ensures 0 <= slot < storage.Length && !old(storage[slot]).Live?
      ensures storage[..] == old(storage[..])[slot := Live(value)]
      ensures inUse == old(inUse) + 1 && history == old(history) + [inUse]
      ensures old(freeHead) != NULL ==>
                slot == old(freeHead) && freeList == old(freeList)[1..] && nextUnused == old(nextUnused)
      ensures old(freeHead) == NULL ==>
                slot == old(nextUnused) && freeList == [] && nextUnused == old(nextUnused) + 1
    {
      hide FreeChain;
      ghost var store := storage[..];
      ChainHead(store, freeHead, freeList);
      if freeHead != NULL {
        slot := freeHead;
        assert store[slot] == storage[slot];
        PopFree(store, freeHead, freeList, Live(value));
        freeHead := storage[slot].nextFree;
        freeList := freeList[1..];
      } else {
        slot := nextUnused;
        TakeFresh(store, freeHead, freeList, slot, Live(value));
        nextUnused := nextUnused + 1;
      }
      inUse := inUse + 1;
      storage[slot] := Live(value);
      history := history + [inUse];
      assert history[|history| - 1] == inUse;
    }

    /** Returns a live slot; it becomes the first to be reused. */
    method Deallocate(slot: int)
      requires Valid() && IsLive(slot)
      modifies this, storage
      ensures Valid()
      ensures storage[..] == old(storage[..])[slot := Free(old(freeHead))]
      ensures freeHead == slot && freeList == [slot] + old(freeList) && nextUnused == old(nextUnused)
      ensures inUse == old(inUse) - 1 && history == old(history) + [inUse]
    {
      ghost var store := storage[..];
      assert store[slot].Live?;
      PushFree(store, freeHead, freeList, slot);
      assert inUse > 0 by {
        InUseCountsLiveSlots(this);
        assert slot in LiveSlots(storage[..]);
      }
      storage[slot] := Free(freeHead);
      freeHead := slot;
      inUse := inUse - 1;
      freeList := [slot] + freeList;
      history := history + [inUse];
      assert history[|history| - 1] == inUse;
    }

    /** Dereferences a pointer to a live object. */
    function Get(slot: int): T
      requires IsLive(slot)
      reads storage
    {
      storage[slot].value
    }

    /** Overwrites the object a pointer leads to. */
    method Set(slot: int, value: T)
      requires Valid() && IsLive(slot)
      modifies storage
      ensures Valid()
      ensures storage[..] == old(storage[..])[slot := Live(value)]
    {
      storage[slot] := Live(value);
    }
  }

  /** `inUse` is the number of live slots, so the slots below the cursor split into
      the free list and the objects in use. */
  lemma InUseCountsLiveSlots<T>(pool: MemPool<T>)
    requires pool.Valid()
    ensures pool.inUse == |LiveSlots(pool.storage[..])|
    ensures forall s :: 0 <= s < pool.nextUnused ==> (pool.IsLive(s) <==> s !in pool.freeList)
    ensures forall s :: pool.IsLive(s) ==> s < pool.nextUnused
  {
    var store := pool.storage[..];
    assert forall s :: 0 <= s < |store| ==> store[s] == pool.storage[s];
    LiveAndFree(store, pool.freeHead, pool.freeList, pool.nextUnused);
  }

  lemma LiveAndFree<T>(store: seq<Block<T>>, head: int, list: seq<int>, cursor: nat)
    requires FreeChain(store, head, list) && cursor <= |store|
    requires forall s :: 0 <= s < |store| ==> (store[s].Untouched? <==> cursor <= s)
    ensures |LiveSlots(store)| + |list| == cursor
    ensures forall s :: 0 <= s < cursor ==> (store[s].Live? <==> s !in list)
  {
    var live, free := LiveSlots(store), (set s | s in list);
    assert forall s :: s in list ==> 0 <= s < |store| && store[s].Free?;
    DistinctCardinality(list);
    assert live !! free;
    assert live + free == Range(cursor);
  }

  lemma HasRoom<T>(pool: MemPool<T>)
    requires pool.Valid() && pool.inUse < pool.storage.Length
    ensures !pool.Exhausted()
  {
  }

  ghost function Range(n: nat): (r: set<int>)
    ensures forall i :: i in r <==> 0 <= i < n
    ensures |r| == n
  {
    if n == 0 then {} else Range(n - 1) + {n - 1}
  }

  lemma {:induction false} DistinctCardinality<T>(list: seq<T>)
    requires forall i, j :: 0 <= i < j < |list| ==> list[i] != list[j]
    ensures |set s | s in list| == |list|
  {
    if list == [] {
    } else {
      var last := |list| - 1;
      DistinctCardinality(list[..last]);
      assert (set s | s in list) == (set s | s in list[..last]) + {list[last]};
      assert list[last] !in list[..last];
    }
  }

  lemma {:induction false} SubsetCardinality<T>(a: set<T>, b: set<T>)
    requires a <= b
    ensures |a| <= |b|
  {
    if a == {} {
    } else {
      var x :| x in a;
      SubsetCardinality(a - {x}, b - {x});
    }
  }
}
