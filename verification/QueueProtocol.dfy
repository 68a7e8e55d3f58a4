/** The single-producer single-consumer queue as atomic steps of its two threads, in any
    interleaving, with stale private copies of the peer's index and indices that wrap. */
module QueueProtocols {
  import opened Types
  import opened Words
  import opened QueueCapacities

  /** What the two threads share, and the private copies each keeps of the other's index. */
  datatype Ring<T> = Ring(
    store: seq<T>, mask: nat, nextWrite: Word, cachedRead: Word, nextRead: Word, cachedWrite: Word)

  function Bump(index: Word): Word {
    (index + 1) % 0x1_0000_0000_0000_0000
  }

  /** The slot to write next, unless the known read index says that the ring is full. */
  function WriteSlot<T>(r: Ring<T>): Option<nat> {
    if And(Bump(r.nextWrite), r.mask) == And(r.cachedRead, r.mask) then None
    else Some(And(r.nextWrite, r.mask))
  }

  /** The slot to read next, unless the known write index says that the ring is empty. */
  function ReadSlot<T>(r: Ring<T>): Option<nat> {
    if r.nextRead == r.cachedWrite then None else Some(And(r.nextRead, r.mask))
  }

  /** Where a thread stands between its steps. */
  datatype Hand = Idle | MustReload | Holding(slot: nat)

  /** The ring, both threads, and the history: the values published and consumed so far,
      and how far the peer had come when each private copy was made. */
  datatype System<T> = System(
    ring: Ring<T>, producer: Hand, consumer: Hand,
    published: seq<T>, consumed: seq<T>, readSeen: nat, writeSeen: nat)

  datatype Step<T> =
    | ProducerLooks | ProducerReloads | ProducerFills(value: T) | ProducerPublishes
    | ConsumerLooks | ConsumerReloads | ConsumerReleases

  function Start<T>(blank: T, capacity: nat): System<T>
    requires capacity > 0
  {
    System(Ring(seq(capacity, _ => blank), capacity - 1, 0, 0, 0, 0), Idle, Idle, [], [], 0, 0)
  }

  /** A thread reloads after a look that failed, and fills, publishes or releases only a
      slot that it was handed. */
  predicate Enabled<T>(s: System<T>, step: Step<T>) {
    match step
    case ProducerLooks => s.producer != MustReload
    case ProducerReloads => s.producer == MustReload
    case ProducerFills(_) => s.producer.Holding? && s.producer.slot < |s.ring.store|
    case ProducerPublishes => s.producer.Holding? && s.producer.slot < |s.ring.store|
    case ConsumerLooks => s.consumer != MustReload
    case ConsumerReloads => s.consumer == MustReload
    case ConsumerReleases => s.consumer.Holding? && s.consumer.slot < |s.ring.store|
  }

  function Handed(slot: Option<nat>, otherwise: Hand): Hand {
    if slot.Some? then Holding(slot.value) else otherwise
  }

  function Do<T>(s: System<T>, step: Step<T>): System<T>
    requires Enabled(s, step)
  {
    match step
    case ProducerLooks => s.(producer := Handed(WriteSlot(s.ring), MustReload))
    case ProducerReloads =>
      var ring := s.ring.(cachedRead := s.ring.nextRead);
      s.(ring := ring, producer := Handed(WriteSlot(ring), Idle), readSeen := |s.consumed|)
    case ProducerFills(v) => s.(ring := s.ring.(store := s.ring.store[s.producer.slot := v]))
    case ProducerPublishes =>
      s.(ring := s.ring.(nextWrite := Bump(s.ring.nextWrite)), producer := Idle,
         published := s.published + [s.ring.store[s.producer.slot]])
    case ConsumerLooks => s.(consumer := Handed(ReadSlot(s.ring), MustReload))
    case ConsumerReloads =>
      var ring := s.ring.(cachedWrite := s.ring.nextWrite);
      s.(ring := ring, consumer := Handed(ReadSlot(ring), Idle), writeSeen := |s.published|)
    case ConsumerReleases =>
      s.(ring := s.ring.(nextRead := Bump(s.ring.nextRead)), consumer := Idle,
         consumed := s.consumed + [s.ring.store[s.consumer.slot]])
  }

  /** The slot that the `n`th value ever published goes to. */
  function SlotOf(n: nat, k: nat): nat {
    n % Pow2(k)
  }

  // ----- invariant -----

  /** The four indices are the true counts modulo 2^64; the private copies lag behind. */
  ghost predicate CountsOk<T>(r: Ring<T>, written: nat, released: nat, readSeen: nat, writeSeen: nat, k: nat) {
    && k <= 63 && |r.store| == Pow2(k) && r.mask == Pow2(k) - 1
    && r.nextWrite == written % WORD_MODULUS && r.nextRead == released % WORD_MODULUS
    && r.cachedRead == readSeen % WORD_MODULUS && r.cachedWrite == writeSeen % WORD_MODULUS
    && readSeen <= released <= writeSeen <= written < readSeen + Pow2(k)
  }

  /** Every value published and not yet released is still in its slot. */
  ghost predicate StoreOk<T>(store: seq<T>, published: seq<T>, released: nat) {
    && store != [] && released <= |published|
    && forall n :: released <= n < |published| ==> store[n % |store|] == published[n]
  }

  ghost predicate Inv<T>(s: System<T>, k: nat) {
    && CountsOk(s.ring, |s.published|, |s.consumed|, s.readSeen, s.writeSeen, k)
    && StoreOk(s.ring.store, s.published, |s.consumed|)
    && s.consumed == s.published[..|s.consumed|]
    && (s.producer.Holding? ==>
          s.producer.slot == SlotOf(|s.published|, k) && |s.published| + 1 < s.readSeen + Pow2(k))
    && (s.consumer.Holding? ==> s.consumer.slot == SlotOf(|s.consumed|, k) && |s.consumed| < s.writeSeen)
    && (s.producer == MustReload ==> |s.published| + 1 == s.readSeen + Pow2(k))
    && (s.consumer == MustReload ==> |s.consumed| == s.writeSeen)
  }

  // ----- wrapped indices -----

  /** A power of two up to 2^64 divides 2^64, so wrapping does not disturb the mask. */
  lemma MaskedCount(n: nat, k: nat)
    requires k <= 64
    ensures And(n % WORD_MODULUS, Pow2(k) - 1) == n % Pow2(k)
  {
    MaskIsRemainder(n % WORD_MODULUS, k);
    Pow2Add(k, 64 - k);
    Pow2OfWord();
    RemainderOfRemainder(n, Pow2(k), Pow2(64 - k));
  }

  lemma RemainderOfRemainder(n: nat, d: nat, e: nat)
    requires d > 0 && e > 0
    ensures d * e > 0 && (n % (d * e)) % d == n % d
  {
    MulAtLeast(d, e);
    var q, r := n / (d * e), n % (d * e);
    assert n == q * (d * e) + r;
    assert r == (r / d) * d + r % d;
    assert q * (d * e) == (q * e) * d;
    assert n == (q * e + r / d) * d + r % d;
    RemainderIs(n, d, q * e + r / d, r % d);
  }

  lemma BumpCounts(n: nat)
    ensures Bump(n % WORD_MODULUS) == (n + 1) % WORD_MODULUS
  {
  }

  /** Counts less than `d` apart have the same remainder only when they are equal. */
  lemma CloseCounts(a: nat, b: nat, d: nat)
    requires d > 0 && a <= b < a + d
    ensures a % d == b % d <==> a == b
  {
    var q := a / d;
    assert a == q * d + a % d;
    if b < (q + 1) * d {
      assert b == q * d + (b - q * d);
      RemainderIs(b, d, q, b - q * d);
    } else {
      assert b == (q + 1) * d + (b - (q + 1) * d);
      RemainderIs(b, d, q + 1, b - (q + 1) * d);
    }
  }

  /** The masked full test is the exact one, however stale the private copy is. */
  lemma FullTestIsExact<T>(r: Ring<T>, written: nat, released: nat, readSeen: nat, writeSeen: nat, k: nat)
    requires CountsOk(r, written, released, readSeen, writeSeen, k)
    ensures WriteSlot(r) == if written + 1 == readSeen + Pow2(k) then None else Some(written % Pow2(k))
  {
    hide And, Pow2, Bump;
    BumpCounts(written);
    MaskedCount(written, k);
    MaskedCount(written + 1, k);
    MaskedCount(readSeen, k);
    OneLapApart(readSeen, written + 1, Pow2(k));
  }

  lemma OneLapApart(a: nat, b: nat, d: nat)
    requires d > 0 && a < b <= a + d
    ensures a % d == b % d <==> b == a + d
  {
    if b == a + d {
      assert a == (a / d) * d + a % d;
      RemainderIs(b, d, a / d + 1, a % d);
    } else {
      CloseCounts(a, b, d);
    }
  }

  /** The empty test compares whole words and is exact too. */
  lemma EmptyTestIsExact<T>(r: Ring<T>, written: nat, released: nat, readSeen: nat, writeSeen: nat, k: nat)
    requires CountsOk(r, written, released, readSeen, writeSeen, k)
    ensures ReadSlot(r) == if released == writeSeen then None else Some(released % Pow2(k))
  {
    hide And, Pow2;
    MaskedCount(released, k);
    Pow2Monotone(k, 64);
    Pow2OfWord();
    CloseCounts(released, writeSeen, WORD_MODULUS);
  }

  // ----- every step keeps the invariant -----

  /** Writing into the slot handed out touches no value that is still to be read. */
  lemma FillKeeps<T>(s: System<T>, k: nat, v: T)
    requires Inv(s, k) && s.producer.Holding?
    ensures StoreOk(s.ring.store[s.producer.slot := v], s.published, |s.consumed|)
  {
    hide Pow2;
    var n, d := |s.published|, Pow2(k);
    forall i | |s.consumed| <= i < n
      ensures i % d != n % d
    {
      CloseCounts(i, n, d);
    }
  }

  lemma PublishKeeps<T>(s: System<T>, k: nat)
    requires Inv(s, k) && s.producer.Holding?
    ensures Inv(Do(s, ProducerPublishes), k)
  {
    hide Pow2;
    BumpCounts(|s.published|);
    hide Bump;
    var s' := Do(s, ProducerPublishes);
    forall n | |s.consumed| <= n < |s'.published|
      ensures s.ring.store[n % |s.ring.store|] == s'.published[n]
    {
      if n < |s.published| {
        assert s'.published[n] == s.published[n];
      }
    }
  }

  lemma ReleaseKeeps<T>(s: System<T>, k: nat)
    requires Inv(s, k) && s.consumer.Holding?
    ensures Inv(Do(s, ConsumerReleases), k)
  {
    hide Pow2;
    var c := |s.consumed|;
    BumpCounts(c);
    hide Bump;
    assert s.ring.store[c % |s.ring.store|] == s.published[c];
    assert s.published[..c + 1] == s.published[..c] + [s.published[c]];
  }

  lemma StepKeeps<T>(s: System<T>, step: Step<T>, k: nat)
    requires Inv(s, k) && Enabled(s, step)
    ensures Inv(Do(s, step), k)
  {
    var w, r := |s.published|, |s.consumed|;
    match step {
      case ProducerLooks =>
        FullTestIsExact(s.ring, w, r, s.readSeen, s.writeSeen, k);
      case ProducerReloads =>
        ReloadTest(s, k);
      case ProducerFills(v) =>
        FillKeeps(s, k, v);
      case ProducerPublishes =>
        PublishKeeps(s, k);
      case ConsumerLooks =>
        EmptyTestIsExact(s.ring, w, r, s.readSeen, s.writeSeen, k);
      case ConsumerReloads =>
        EmptyTestIsExact(s.ring.(cachedWrite := s.ring.nextWrite), w, r, s.readSeen, w, k);
      case ConsumerReleases =>
        ReleaseKeeps(s, k);
    }
  }

  lemma ReloadTest<T>(s: System<T>, k: nat)
    requires Inv(s, k)
    ensures WriteSlot(s.ring.(cachedRead := s.ring.nextRead))
         == if |s.published| + 1 == |s.consumed| + Pow2(k) then None else Some(|s.published| % Pow2(k))
  {
    FullTestIsExact(s.ring.(cachedRead := s.ring.nextRead), |s.published|, |s.consumed|, |s.consumed|, s.writeSeen, k);
  }

  // ----- every run -----

  /** Each step can be taken where it stands. */
  ghost predicate Possible<T>(s: System<T>, steps: seq<Step<T>>)
    decreases |steps|
  {
    steps == [] || (Enabled(s, steps[0]) && Possible(Do(s, steps[0]), steps[1..]))
  }

  ghost function Run<T>(s: System<T>, steps: seq<Step<T>>): System<T>
    requires Possible(s, steps)
    decreases |steps|
  {
    if steps == [] then s else Run(Do(s, steps[0]), steps[1..])
  }

  /** The invariant holds along a run, and the history only grows. */
  lemma {:induction false} RunKeeps<T>(s: System<T>, steps: seq<Step<T>>, k: nat)
    requires Inv(s, k) && Possible(s, steps)
    ensures Inv(Run(s, steps), k)
    ensures s.published <= Run(s, steps).published && s.consumed <= Run(s, steps).consumed
    decreases |steps|
  {
    hide Inv, Enabled;
    if steps == [] {
    } else {
      StepKeeps(s, steps[0], k);
      RunKeeps(Do(s, steps[0]), steps[1..], k);
      StepGrows(s, steps[0]);
    }
  }

  lemma StepGrows<T>(s: System<T>, step: Step<T>)
    requires Enabled(s, step)
    ensures s.published <= Do(s, step).published && s.consumed <= Do(s, step).consumed
  {
  }

  lemma StartsWell<T>(blank: T, k: nat)
    requires k <= 63
    ensures Inv(Start(blank, Pow2(k)), k)
  {
  }

  /** First in, first out, under every interleaving: what was consumed is a prefix of what
      was published; at most capacity - 1 values are under way; the slot the producer may
      write holds no value that is still to be read; the slot the consumer may read holds
      the oldest value not yet consumed, and the two threads never hold the same slot. */
  lemma FifoAlways<T>(blank: T, k: nat, steps: seq<Step<T>>)
    requires k <= 63 && Possible(Start(blank, Pow2(k)), steps)
    ensures var s := Run(Start(blank, Pow2(k)), steps);
            && s.consumed <= s.published && |s.published| - |s.consumed| <= Pow2(k) - 1
            && (s.producer.Holding? ==>
                  forall n :: |s.consumed| <= n < |s.published| ==> s.producer.slot != SlotOf(n, k))
            && (s.consumer.Holding? ==>
                  && |s.consumed| < |s.published| && s.consumer.slot < |s.ring.store|
                  && s.ring.store[s.consumer.slot] == s.published[|s.consumed|])
            && (s.producer.Holding? && s.consumer.Holding? ==> s.producer.slot != s.consumer.slot)
  {
    StartsWell(blank, k);
    RunKeeps(Start(blank, Pow2(k)), steps, k);
    var s := Run(Start(blank, Pow2(k)), steps);
    hide Run, Possible, Pow2, Start, StoreOk, SlotOf;
    assert s.consumed <= s.published && |s.published| - |s.consumed| <= Pow2(k) - 1;
    hide Inv, CountsOk;
    HeldIsOldest(s, k);
    if s.producer.Holding? {
      HeldIsFree(s, k);
    }
  }

  lemma HeldIsFree<T>(s: System<T>, k: nat)
    requires Inv(s, k) && s.producer.Holding?
    ensures forall n :: |s.consumed| <= n < |s.published| ==> s.producer.slot != SlotOf(n, k)
    ensures s.consumer.Holding? ==> s.producer.slot != s.consumer.slot
  {
    hide Pow2, StoreOk, SlotOf;
    var c, n := |s.consumed|, |s.published|;
    assert c <= n < c + Pow2(k) && s.producer.slot == SlotOf(n, k);
    assert s.consumer.Holding? ==> s.consumer.slot == SlotOf(c, k) && c < n;
    hide Inv, CountsOk;
    forall i | c <= i < n
      ensures s.producer.slot != SlotOf(i, k)
    {
      OtherSlot(i, n, k);
    }
    if s.consumer.Holding? {
      OtherSlot(c, n, k);
    }
  }

  lemma OtherSlot(i: nat, n: nat, k: nat)
    requires i < n < i + Pow2(k)
    ensures SlotOf(i, k) != SlotOf(n, k)
  {
    CloseCounts(i, n, Pow2(k));
  }

  lemma HeldIsOldest<T>(s: System<T>, k: nat)
    requires Inv(s, k)
    ensures s.consumer.Holding? ==>
              && |s.consumed| < |s.published| && s.consumer.slot < |s.ring.store|
              && s.ring.store[s.consumer.slot] == s.published[|s.consumed|]
  {
    hide Pow2;
    assert s.consumer.Holding? ==> |s.consumed| < |s.published|;
  }

  /** A null answer is true when it is given: at the reload the ring really is full, or
      empty; and a slot is only handed out when the ring really has room, or a value. */
  lemma AnswersAreTrue<T>(blank: T, k: nat, steps: seq<Step<T>>)
    requires k <= 63 && Possible(Start(blank, Pow2(k)), steps)
    ensures var s := Run(Start(blank, Pow2(k)), steps);
            && (Enabled(s, ProducerReloads) ==>
                  (Do(s, ProducerReloads).producer == Idle <==> |s.published| - |s.consumed| == Pow2(k) - 1))
            && (Enabled(s, ConsumerReloads) ==>
                (Do(s, ConsumerReloads).consumer == Idle <==> |s.consumed| == |s.published|))
            && (s.producer.Holding? ==> |s.published| - |s.consumed| < Pow2(k) - 1)
            && (s.consumer.Holding? ==> |s.consumed| < |s.published|)
  {
    StartsWell(blank, k);
    RunKeeps(Start(blank, Pow2(k)), steps, k);
    var s := Run(Start(blank, Pow2(k)), steps);
    hide Run, Possible, Pow2;
    ReloadTest(s, k);
    EmptyTestIsExact(s.ring.(cachedWrite := s.ring.nextWrite), |s.published|, |s.consumed|, s.readSeen,
                     |s.published|, k);
  }

  /** `size` loads the read index first and the write index any number of steps later. The
      difference modulo 2^64 never underflows: it is what was published by the second load
      less what was released by the first. */
  lemma SizeIsTrue<T>(blank: T, k: nat, steps: seq<Step<T>>, between: seq<Step<T>>)
    requires k <= 63 && Possible(Start(blank, Pow2(k)), steps)
    requires Possible(Run(Start(blank, Pow2(k)), steps), between) && |between| < 0x8000_0000_0000_0000
    ensures var first := Run(Start(blank, Pow2(k)), steps);
            var second := Run(first, between);
            (second.ring.nextWrite - first.ring.nextRead) % WORD_MODULUS == |second.published| - |first.consumed|
  {
    var first := Run(Start(blank, Pow2(k)), steps);
    StartsWell(blank, k);
    RunKeeps(Start(blank, Pow2(k)), steps, k);
    RunKeeps(first, between, k);
    var second := Run(first, between);
    PublishedAtMost(first, between);
    Pow2Monotone(k, 63);
    ShiftAmounts();
    hide Run, Possible, Pow2;
    WrappedDifference(|second.published|, |first.consumed|);
  }

  lemma {:induction false} PublishedAtMost<T>(s: System<T>, steps: seq<Step<T>>)
    requires Possible(s, steps)
    ensures |Run(s, steps).published| <= |s.published| + |steps|
    decreases |steps|
  {
    hide Enabled;
    if steps == [] {
    } else {
      PublishedAtMost(Do(s, steps[0]), steps[1..]);
    }
  }

  lemma WrappedDifference(a: nat, b: nat)
    requires b <= a < b + WORD_MODULUS
    ensures (a % WORD_MODULUS - b % WORD_MODULUS) % WORD_MODULUS == a - b
  {
  }
}
