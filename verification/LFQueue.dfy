/** The queue object. Each method is the composition of atomic steps of `QueueProtocols`;
    what interleavings of those steps do is proved there. */
module LFQueues {
  import opened Types
  import opened Words
  import opened QueueCapacities
  import opened QueueProtocols

  class LFQueue<T(0)> {
    const store: array<T>
    const mask: nat
    const capacity: nat
    var nextWriteIndex: Word
    var cachedReadIndex: Word
    var nextReadIndex: Word
    var cachedWriteIndex: Word

    /** log2 of the capacity, every value published and consumed so far, and how far the
        peer had come when each private copy was made. */
    ghost const k: nat
    ghost var published: seq<T>
    ghost var consumed: seq<T>
    ghost var readSeen: nat
    ghost var writeSeen: nat

    ghost function View(): Ring<T>
      reads this, store
    {
      Ring(store[..], mask, nextWriteIndex, cachedReadIndex, nextReadIndex, cachedWriteIndex)
    }

    ghost predicate Valid()
      reads this, store
    {
      && capacity == store.Length == Pow2(k)
      && CountsOk(View(), |published|, |consumed|, readSeen, writeSeen, k)
      && StoreOk(store[..], published, |consumed|)
      && consumed == published[..|consumed|]
    }

    /** The capacity is the least power of two that is not below what was asked for. No power
        of two of 64 bits is above 2^63: whoever asks for more gets a queue without a slot. */
    constructor (numElems: Word)
      ensures published == [] && consumed == [] && fresh(store)
      ensures numElems <= 0x8000_0000_0000_0000 ==>
                Valid() && numElems <= capacity && (k > 0 ==> Pow2(k - 1) < numElems)
      ensures numElems > 0x8000_0000_0000_0000 ==>
                store.Length == capacity == 0 && mask == WORD_MODULUS - 1
    {
      var size, power := RoundUpToPowerOf2(numElems);
      k := power;
      store := new T[size];
      mask := if size == 0 then WORD_MODULUS - 1 else size - 1;
      capacity := size;
      nextWriteIndex, cachedReadIndex, nextReadIndex, cachedWriteIndex := 0, 0, 0, 0;
      published, consumed, readSeen, writeSeen := [], [], 0, 0;
    }

    /** The slot to fill next; null exactly when `capacity - 1` values are waiting. */
    method TryGetNextToWriteTo() returns (slot: Option<nat>)
      requires Valid()
      modifies this`cachedReadIndex, this`readSeen
      ensures Valid()
      ensures var before := old(View());
              var after := if WriteSlot(before).Some? then before else before.(cachedRead := before.nextRead);
              View() == after && slot == WriteSlot(after)
      ensures slot == if |published| - |consumed| == capacity - 1 then None else Some(SlotOf(|published|, k))
      ensures slot.Some? ==> slot.value < store.Length && forall n :: |consumed| <= n < |published| ==>
                slot.value != SlotOf(n, k)
    {
      hide Pow2, And, StoreOk;
      FullTestIsExact(View(), |published|, |consumed|, readSeen, writeSeen, k);
      var currentWrite: int := nextWriteIndex;
      var nextSlot := And(Bump(currentWrite), mask);
      MaskedCount(|published|, k);
      FreeSlots(|consumed|, |published|, k);
      if nextSlot == And(cachedReadIndex, mask) {
        cachedReadIndex, readSeen := nextReadIndex, |consumed|;
        FullTestIsExact(View(), |published|, |consumed|, readSeen, writeSeen, k);
        if nextSlot == And(cachedReadIndex, mask) {
          return None;
        }
      }
      slot := Some(And(currentWrite, mask));
    }

    /** Stores a value in the slot handed out; nothing that waits to be read changes. */
    method Fill(slot: nat, value: T)
      requires Valid() && slot == SlotOf(|published|, k) && |published| - |consumed| < capacity - 1
      modifies store
      ensures Valid() && slot < store.Length && store[..] == old(store[..])[slot := value]
    {
      hide And, Pow2, SlotOf;
      FreeSlots(|consumed|, |published|, k);
      FillStore(store[..], published, |consumed|, k, slot, value);
      hide StoreOk;
      ghost var filled := store[..][slot := value];
      store[slot] := value;
      assert store[..] == filled;
    }

    /** Publishes what is in the slot handed out last. */
    method UpdateWriteIndex()
      requires Valid() && |published| + 1 < readSeen + capacity && SlotOf(|published|, k) < store.Length
      modifies this`nextWriteIndex, this`published
      ensures Valid() && published == old(published) + [store[SlotOf(old(|published|), k)]]
      ensures View() == old(View()).(nextWrite := Bump(old(nextWriteIndex)))
    {
      hide Pow2;
      var currentWrite: int := nextWriteIndex;
      BumpCounts(|published|);
      PublishStore(store[..], published, |consumed|, k);
      published := published + [store[SlotOf(|published|, k)]];
      nextWriteIndex := Bump(currentWrite);
    }

    /** The slot of the oldest value not yet consumed; null exactly when there is none. */
    method GetNextToRead() returns (slot: Option<nat>)
      requires Valid()
      modifies this`cachedWriteIndex, this`writeSeen
      ensures Valid()
      ensures var before := old(View());
              var after := if ReadSlot(before).Some? then before else before.(cachedWrite := before.nextWrite);
              View() == after && slot == ReadSlot(after)
      ensures slot == if |consumed| == |published| then None else Some(SlotOf(|consumed|, k))
      ensures slot.Some? ==>
                slot.value < store.Length && store[slot.value] == published[|consumed|] && |consumed| < writeSeen
    {
      hide Pow2, And;
      EmptyTestIsExact(View(), |published|, |consumed|, readSeen, writeSeen, k);
      var currentRead: int := nextReadIndex;
      MaskedCount(|consumed|, k);
      if |consumed| < |published| {
        assert store[..][|consumed| % store.Length] == published[|consumed|];
      }
      if currentRead == cachedWriteIndex {
        cachedWriteIndex, writeSeen := nextWriteIndex, |published|;
        EmptyTestIsExact(View(), |published|, |consumed|, readSeen, writeSeen, k);
        if currentRead == cachedWriteIndex {
          return None;
        }
      }
      slot := Some(And(currentRead, mask));
    }

    /** Releases the slot handed out for reading: its value has been consumed. */
    method UpdateReadIndex()
      requires Valid() && |consumed| < writeSeen
      modifies this`nextReadIndex, this`consumed
      ensures Valid() && |old(consumed)| < |published| && consumed == old(consumed) + [published[|old(consumed)|]]
      ensures View() == old(View()).(nextRead := Bump(old(nextReadIndex)))
    {
      hide Pow2, SlotOf, StoreOk;
      var currentRead: int := nextReadIndex;
      BumpCounts(|consumed|);
      hide Bump;
      ReleaseStore(store[..], published, |consumed|);
      assert published[..|consumed| + 1] == published[..|consumed|] + [published[|consumed|]];
      consumed := consumed + [published[|consumed|]];
      nextReadIndex := Bump(currentRead);
    }

    /** How many values wait to be read. */
    method Size() returns (n: nat)
      requires Valid()
      ensures n == |published| - |consumed| <= capacity - 1
    {
      hide Pow2;
      Pow2Bound(k);
      var currentRead: int := nextReadIndex;
      var currentWrite: int := nextWriteIndex;
      WrappedDifference(|published|, |consumed|);
      n := (currentWrite - currentRead) % 0x1_0000_0000_0000_0000;
    }
  }

  lemma FreeSlots(c: nat, n: nat, k: nat)
    requires c <= n < c + Pow2(k)
    ensures SlotOf(n, k) < Pow2(k)
    ensures forall i :: c <= i < n ==> SlotOf(n, k) != SlotOf(i, k)
  {
    hide Pow2;
    assert SlotOf(n, k) < Pow2(k);
    hide SlotOf;
    forall i | c <= i < n
      ensures SlotOf(n, k) != SlotOf(i, k)
    {
      OtherSlot(i, n, k);
    }
  }

  lemma PublishStore<T>(store: seq<T>, published: seq<T>, released: nat, k: nat)
    requires StoreOk(store, published, released) && |store| == Pow2(k) && SlotOf(|published|, k) < |store|
    ensures StoreOk(store, published + [store[SlotOf(|published|, k)]], released)
  {
  }

  lemma FillStore<T>(store: seq<T>, published: seq<T>, released: nat, k: nat, slot: nat, value: T)
    requires StoreOk(store, published, released) && |store| == Pow2(k) && slot < |store|
    requires forall i :: released <= i < |published| ==> slot != SlotOf(i, k)
    ensures StoreOk(store[slot := value], published, released)
  {
    forall n | released <= n < |published|
      ensures store[slot := value][n % |store|] == published[n]
    {
      assert slot != SlotOf(n, k);
    }
  }

  lemma ReleaseStore<T>(store: seq<T>, published: seq<T>, released: nat)
    requires StoreOk(store, published, released) && released < |published|
    ensures StoreOk(store, published, released + 1)
  {
  }

  lemma Pow2Bound(k: nat)
    requires k <= 63
    ensures Pow2(k) < WORD_MODULUS
  {
    Pow2Monotone(k, 63);
    ShiftAmounts();
  }
}
