/** The replication protocol as a whole: publisher, synthesizer, two lossy channels and a
    consumer, under any schedule. */
module Replications {
  import opened Types
  import opened Markets
  import opened Snapshots
  import opened ConsumerSpecs

  /** `inc[n - 1]` is incremental number n; the synthesizer has absorbed the first `anchor`
      of them; `sent` is everything ever sent on the snapshot channel, of which packets
      before `cursor` can no longer arrive. */
  datatype System = System(inc: seq<Update>, anchor: nat, sent: seq<Packet>, cursor: nat, consumer: Consumer)

  datatype Action =
    | Publish(update: Update)        // the exchange sends the next incremental
    | AbsorbNext                     // the synthesizer takes in one incremental
    | PublishSnapshot                // the synthesizer sends a snapshot cycle
    | Deliver(number: nat)           // any sent incremental arrives: late, again, out of order, or never
    | DeliverSnapshot(position: nat) // a snapshot packet arrives; those skipped are lost

  const START := System([], 0, [], 0, INITIAL)

  /** The market after the first `n` incrementals. */
  ghost function MarketAt(inc: seq<Update>, n: nat): Market
    requires n <= |inc|
  {
    Replay(map[], inc[..n])
  }

  ghost function SnapshotAt(inc: seq<Update>, n: nat): seq<Update>
    requires n <= |inc|
  {
    Snapshot(MarketAt(inc, n), n)
  }

  /** The exchange publishes clean streams; the channels lose, repeat and, for
      incrementals, reorder. */
  ghost predicate Enabled(s: System, a: Action) {
    match a
    case Publish(u) => Clean(map[], s.inc + [u])
    case AbsorbNext => s.anchor < |s.inc|
    case PublishSnapshot => s.anchor <= |s.inc|
    case Deliver(n) => 1 <= n <= |s.inc|
    case DeliverSnapshot(k) => s.cursor <= k < |s.sent|
  }

  ghost function Do(s: System, a: Action): System
    requires Enabled(s, a)
  {
    match a
    case Publish(u) => s.(inc := s.inc + [u])
    case AbsorbNext => s.(anchor := s.anchor + 1)
    case PublishSnapshot => s.(sent := s.sent + Numbered(SnapshotAt(s.inc, s.anchor)))
    case Deliver(n) => s.(consumer := Receive(s.consumer, false, Packet(n, s.inc[n - 1])))
    case DeliverSnapshot(k) => s.(cursor := k, consumer := Receive(s.consumer, true, s.sent[k]))
  }

  /** Every action can happen where it stands. */
  ghost predicate Possible(actions: seq<Action>)
    decreases |actions|, 0
  {
    actions == [] ||
    (Possible(actions[..|actions| - 1]) && Enabled(Run(actions[..|actions| - 1]), actions[|actions| - 1]))
  }

  ghost function Run(actions: seq<Action>): System
    requires Possible(actions)
    decreases |actions|, 1
  {
    if actions == [] then START else Do(Run(actions[..|actions| - 1]), actions[|actions| - 1])
  }

  /** The last incremental the consumer was in step with. */
  ghost function InStepWith(actions: seq<Action>): int
    requires Possible(actions)
    decreases |actions|
  {
    if actions == [] || !Run(actions).consumer.inRecovery then Run(actions).consumer.nextExp - 1
    else InStepWith(actions[..|actions| - 1])
  }

  // ----- invariant -----

  ghost predicate PacketOk(inc: seq<Update>, p: Packet, a: nat) {
    a <= |inc| && 0 <= p.seqNum < |SnapshotAt(inc, a)| && p.update == SnapshotAt(inc, a)[p.seqNum]
  }

  ghost predicate Nondecreasing(xs: seq<nat>) {
    forall i, j :: 0 <= i < j < |xs| ==> xs[i] <= xs[j]
  }

  /** `anchors[k]` is the anchor of the cycle that packet `k` belongs to. */
  ghost predicate SentOk(s: System, anchors: seq<nat>) {
    && s.anchor <= |s.inc| && s.cursor <= |s.sent| == |anchors|
    && Nondecreasing(anchors)
    && forall k :: 0 <= k < |s.sent| ==> anchors[k] <= s.anchor && PacketOk(s.inc, s.sent[k], anchors[k])
  }

  ghost predicate QueuedOk(inc: seq<Update>, q: Queue) {
    forall n :: n in q ==> 1 <= n <= |inc| && q[n] == inc[n - 1]
  }

  /** The snapshot queue is a gap-free beginning, whose message `i` comes from a cycle
      anchored at `from[i]`; only its last message can be a SNAPSHOT_END. */
  ghost predicate Prefix(inc: seq<Update>, q: Queue, from: seq<nat>) {
    && Consecutive(q) && |from| == |q| && Nondecreasing(from)
    && forall i :: 0 <= i < |from| ==>
         PacketOk(inc, Packet(i, q[i]), from[i]) && (i < |from| - 1 ==> q[i].kind != SNAPSHOT_END)
  }

  /** No packet that can still arrive is older than what is queued. */
  ghost predicate Behind(s: System, anchors: seq<nat>, from: seq<nat>) {
    |anchors| == |s.sent| &&
    forall i :: 0 <= i < |from| ==>
      from[i] <= s.anchor && forall k :: s.cursor <= k < |s.sent| ==> from[i] <= anchors[k]
  }

  /** What was forwarded amounts to the first `n` incrementals. */
  ghost predicate Forwarded(inc: seq<Update>, emitted: seq<Update>, n: int) {
    0 <= n <= |inc| && Sound(map[], emitted) && Replay(map[], emitted) == MarketAt(inc, n)
  }

  ghost predicate Recovering(q: Queue, n: int) {
    exists k :: k in q && k > n + 1
  }

  /** The consumer's queues hold true messages, and it is in step with `n` or has a reason
      to recover. */
  ghost predicate ConsumerOk(inc: seq<Update>, c: Consumer, from: seq<nat>, n: int) {
    && QueuedOk(inc, c.incrementals)
    && Prefix(inc, c.snapshots, from)
    && (from != [] ==> c.snapshots[|from| - 1].kind != SNAPSHOT_END)
    && Forwarded(inc, c.emitted, n)
    && (if c.inRecovery then Recovering(c.incrementals, n) else c.nextExp == n + 1)
  }

  ghost predicate Inv(s: System, anchors: seq<nat>, from: seq<nat>, n: int) {
    && Clean(map[], s.inc)
    && SentOk(s, anchors)
    && ConsumerOk(s.inc, s.consumer, from, n)
    && Behind(s, anchors, from)
  }

  // ----- stability under new incrementals -----

  lemma MarketStable(inc: seq<Update>, u: Update, n: nat)
    requires n <= |inc|
    ensures MarketAt(inc + [u], n) == MarketAt(inc, n)
  {
    assert (inc + [u])[..n] == inc[..n];
  }

  lemma PublishKeeps(s: System, u: Update, anchors: seq<nat>, from: seq<nat>, n: int)
    requires Inv(s, anchors, from, n) && Clean(map[], s.inc + [u])
    ensures Inv(s.(inc := s.inc + [u]), anchors, from, n)
  {
    hide Clean, Snapshot, Replay, Sound, Nondecreasing, Recovering;
    var inc' := s.inc + [u];
    PacketsStable(s.inc, u);
    MarketStable(s.inc, u, n);
    QueuedStable(s.inc, u, s.consumer.incrementals);
    hide PacketOk, MarketAt, QueuedOk;
    SentStable(s, u, anchors);
    PrefixStable(s.inc, u, s.consumer.snapshots, from);
  }

  lemma PacketsStable(inc: seq<Update>, u: Update)
    ensures forall p, a :: PacketOk(inc, p, a) ==> PacketOk(inc + [u], p, a)
  {
    hide Snapshot, MarketAt;
    forall p, a | PacketOk(inc, p, a)
      ensures PacketOk(inc + [u], p, a)
    {
      MarketStable(inc, u, a);
    }
  }

  lemma QueuedStable(inc: seq<Update>, u: Update, q: Queue)
    requires QueuedOk(inc, q)
    ensures QueuedOk(inc + [u], q)
  {
  }

  lemma SentStable(s: System, u: Update, anchors: seq<nat>)
    requires SentOk(s, anchors)
    ensures SentOk(s.(inc := s.inc + [u]), anchors)
  {
    hide PacketOk;
    PacketsStable(s.inc, u);
  }

  lemma PrefixStable(inc: seq<Update>, u: Update, q: Queue, from: seq<nat>)
    requires Prefix(inc, q, from)
    ensures Prefix(inc + [u], q, from)
  {
    hide PacketOk;
    PacketsStable(inc, u);
  }

  lemma CycleSent(s: System, anchors: seq<nat>, cycle: seq<Packet>, anchors': seq<nat>)
    requires SentOk(s, anchors) && cycle == Numbered(SnapshotAt(s.inc, s.anchor))
    requires anchors' == anchors + seq(|cycle|, _ => s.anchor)
    ensures SentOk(s.(sent := s.sent + cycle), anchors')
  {
    hide Snapshot, MarketAt;
    forall k | 0 <= k < |s.sent + cycle|
      ensures anchors'[k] <= s.anchor && PacketOk(s.inc, (s.sent + cycle)[k], anchors'[k])
    {
      if k < |s.sent| {
        assert PacketOk(s.inc, s.sent[k], anchors[k]);
      } else {
        assert (s.sent + cycle)[k] == cycle[k - |s.sent|];
      }
    }
  }

  lemma CycleKeeps(s: System, anchors: seq<nat>, from: seq<nat>, n: int)
    returns (anchors': seq<nat>)
    requires Inv(s, anchors, from, n)
    ensures Inv(s.(sent := s.sent + Numbered(SnapshotAt(s.inc, s.anchor))), anchors', from, n)
  {
    hide Prefix, Forwarded, SnapshotAt, Recovering, QueuedOk, PacketOk, Clean;
    var cycle := Numbered(SnapshotAt(s.inc, s.anchor));
    anchors' := anchors + seq(|cycle|, _ => s.anchor);
    CycleSent(s, anchors, cycle, anchors');
  }

  lemma AbsorbKeeps(s: System, anchors: seq<nat>, from: seq<nat>, n: int)
    requires Inv(s, anchors, from, n) && s.anchor < |s.inc|
    ensures Inv(s.(anchor := s.anchor + 1), anchors, from, n)
  {
    hide Prefix, Forwarded, Recovering, QueuedOk, PacketOk, Clean;
  }

  // ----- one completed recovery -----

  /** A queue that ends in SNAPSHOT_END under the number it started with is the complete
      snapshot of one anchor, whichever cycles its packets came from. */
  lemma WholeSnapshot(inc: seq<Update>, q: Queue, from: seq<nat>)
    requires Prefix(inc, q, from) && from != []
    ensures |q| == |from| && forall k :: 0 <= k < |q| ==> k in q
    ensures q[0].kind == SNAPSHOT_START
    ensures q[|q| - 1].kind == SNAPSHOT_END && q[0].orderId == q[|q| - 1].orderId ==>
              && q[0].orderId == from[0] <= |inc|
              && Messages(q, 0, |q|) == SnapshotAt(inc, from[0])
  {
    hide Snapshot, MarketAt;
    var last := |q| - 1;
    assert PacketOk(inc, Packet(0, q[0]), from[0]) && PacketOk(inc, Packet(last, q[last]), from[last]);
    MarkersOfSnapshot(MarketAt(inc, from[0]), from[0]);
    MarkersOfSnapshot(MarketAt(inc, from[last]), from[last]);
    if q[last].kind == SNAPSHOT_END && q[0].orderId == q[last].orderId {
      var snapshot := SnapshotAt(inc, from[0]);
      assert last == |SnapshotAt(inc, from[last])| - 1;
      assert from[0] == from[last];
      forall i | 0 <= i < |q|
        ensures q[i] == snapshot[i]
      {
        assert PacketOk(inc, Packet(i, q[i]), from[i]);
        assert i > 0 ==> from[0] <= from[i];
        assert i < last ==> from[i] <= from[last];
      }
      assert Messages(q, 0, |q|) == snapshot;
    }
  }

  lemma SliceReplay(inc: seq<Update>, a: nat, e: nat)
    requires a <= e <= |inc| && Clean(map[], inc)
    ensures Payload(inc[a..e]) == inc[a..e]
    ensures Sound(MarketAt(inc, a), inc[a..e]) && Replay(MarketAt(inc, a), inc[a..e]) == MarketAt(inc, e)
  {
    hide Clean, Replay, Sound, Payload;
    assert inc[..e] == inc[..a] + inc[a..e];
    ReplayConcat(map[], inc[..a], inc[a..e]);
    forall i | a <= i < e
      ensures !IsMarker(inc[i])
    {
      CleanPrefix(map[], inc, i);
    }
    PayloadKeeps(inc[a..e]);
    CleanPrefix(map[], inc, e);
    CleanSuffix(map[], inc[..a], inc[a..e]);
    CleanIsSound(MarketAt(inc, a), inc[a..e]);
  }

  lemma {:induction false} CleanSuffix(m: Market, a: seq<Update>, b: seq<Update>)
    requires Clean(m, a + b)
    ensures Clean(Replay(m, a), b)
    decreases |a|
  {
    if a == [] {
      assert a + b == b;
    } else {
      assert (a + b)[1..] == a[1..] + b;
      CleanSuffix(Apply(m, a[0]), a[1..], b);
    }
  }

  lemma MarketIsRegular(inc: seq<Update>, n: nat)
    requires n <= |inc| && Clean(map[], inc)
    ensures Regular(MarketAt(inc, n))
  {
    CleanPrefix(map[], inc, n);
    CleanRegular(map[], inc[..n]);
  }

  /** A snapshot anchored at `a`, then incrementals a + 1 to e: the consumer is at e. */
  lemma RecoveredIsForwarded(inc: seq<Update>, emitted: seq<Update>, n: int, a: nat, e: nat)
    requires Clean(map[], inc) && Forwarded(inc, emitted, n) && a <= e <= |inc|
    ensures Forwarded(inc, emitted + Payload(SnapshotAt(inc, a)) + Payload(inc[a..e]), e)
  {
    hide Clean, Sound, Snapshot, Replay, Regular;
    var m0, body, tail := Replay(map[], emitted), Payload(SnapshotAt(inc, a)), inc[a..e];
    MarketIsRegular(inc, n);
    MarketIsRegular(inc, a);
    RegularParts(m0);
    SnapshotReplay(m0, MarketAt(inc, a), a);
    SliceReplay(inc, a, e);
    SoundConcat(map[], emitted, body);
    ReplayConcat(map[], emitted, body);
    SoundConcat(map[], emitted + body, tail);
    ReplayConcat(map[], emitted + body, tail);
  }

  lemma RegularParts(m: Market)
    requires Regular(m)
    ensures Addressable(m) && Uncrossed(m)
  {
  }

  /** The attempt to complete a recovery: either nothing is forwarded and the queue is a
      beginning of a snapshot again, or the consumer is in step, past the gap. */
  lemma SyncKeeps(inc: seq<Update>, c: Consumer, from: seq<nat>, n: int) returns (from': seq<nat>, n': int)
    requires c.inRecovery && Clean(map[], inc) && QueuedOk(inc, c.incrementals)
    requires Forwarded(inc, c.emitted, n) && Recovering(c.incrementals, n)
    requires Prefix(inc, c.snapshots, from) || !Consecutive(c.snapshots)
    ensures ConsumerOk(inc, Sync(c), from', n') && (from' == [] || from' == from)
    ensures if Sync(c).inRecovery then n' == n else n + 1 < n' + 1 == Sync(c).nextExp
  {
    hide Clean, Forwarded, SnapshotAt, PacketOk;
    var q, c' := c.snapshots, Sync(c);
    from' := if c'.snapshots == map[] then [] else from;
    n' := if c'.inRecovery then n else c'.nextExp - 1;
    NothingQueued(inc);
    if q != map[] && Consecutive(q) {
      assert |from| == |q| && from != [];
      WholeSnapshot(inc, q, from);
      if q[|q| - 1].kind == SNAPSHOT_END && q[0].orderId == q[|q| - 1].orderId {
        RecoveryEnds(inc, c, n, from[0]);
      }
    }
  }

  lemma NothingQueued(inc: seq<Update>)
    ensures Prefix(inc, map[], []) && QueuedOk(inc, map[])
  {
  }

  /** What an attempt with a complete snapshot comes to. */
  ghost predicate Outcome(inc: seq<Update>, c: Consumer, c': Consumer, n: int) {
    if c'.inRecovery then c' == c.(snapshots := map[], nextExp := c'.nextExp)
    else c' == Consumer(c'.nextExp, false, map[], map[], c'.emitted)
         && n + 1 < c'.nextExp && Forwarded(inc, c'.emitted, c'.nextExp - 1)
  }

  lemma RecoveryEnds(inc: seq<Update>, c: Consumer, n: int, a: nat)
    requires c.inRecovery && Clean(map[], inc) && QueuedOk(inc, c.incrementals)
    requires Forwarded(inc, c.emitted, n) && Recovering(c.incrementals, n)
    requires var q := c.snapshots;
             && Consecutive(q) && |q| > 0 && q[0].kind == SNAPSHOT_START
             && q[|q| - 1].kind == SNAPSHOT_END && q[0].orderId == q[|q| - 1].orderId == a <= |inc|
             && Messages(q, 0, |q|) == SnapshotAt(inc, a)
    ensures Outcome(inc, c, Sync(c), n)
  {
    hide Clean, Forwarded, SnapshotAt, Payload, Messages, FirstMissing, Sync, Recovering, QueuedOk;
    SyncAtEnd(c);
    var e := FirstMissing(c.incrementals, a + 1);
    if !Beyond(c.incrementals, e) {
      QueuedTail(inc, c, n, a, e);
      RecoveredIsForwarded(inc, c.emitted, n, a, e - 1);
    }
  }

  ghost predicate Beyond(q: Queue, e: int) {
    exists k :: k in q && k >= e
  }

  /** The last two outcomes of an attempt. */
  lemma SyncAtEnd(c: Consumer)
    requires var q := c.snapshots;
             && Consecutive(q) && |q| > 0 && q[0].kind == SNAPSHOT_START
             && q[|q| - 1].kind == SNAPSHOT_END && q[0].orderId == q[|q| - 1].orderId
    ensures var q, from := c.snapshots, c.snapshots[0].orderId + 1;
            var e := FirstMissing(c.incrementals, from);
            Sync(c) == if Beyond(c.incrementals, e) then c.(snapshots := map[], nextExp := e)
                       else Consumer(e, false, map[], map[], c.emitted + Payload(Messages(q, 0, |q|))
                                                              + Payload(Messages(c.incrementals, from, e)))
  {
    hide FirstMissing, Messages, Payload;
  }

  /** Without a hole up to the last queued number, the queue continues the snapshot past the gap. */
  lemma QueuedTail(inc: seq<Update>, c: Consumer, n: int, a: nat, e: int)
    requires QueuedOk(inc, c.incrementals) && Recovering(c.incrementals, n) && a <= |inc|
    requires e == FirstMissing(c.incrementals, a + 1) && !Beyond(c.incrementals, e)
    ensures a + 1 <= e <= |inc| + 1 && n + 1 < e
    ensures Messages(c.incrementals, a + 1, e) == inc[a..e - 1]
  {
    var k :| k in c.incrementals && k > n + 1;
    assert k < e;
    assert e > a + 1 ==> e - 1 in c.incrementals;
    var tail := Messages(c.incrementals, a + 1, e);
    forall i | 0 <= i < |tail|
      ensures tail[i] == inc[a + i]
    {
      assert a + 1 + i in c.incrementals;
    }
    assert tail == inc[a..e - 1];
  }

  // ----- deliveries -----

  /** The queue after a snapshot packet arrived: a longer beginning, or one with a hole. */
  lemma EnqueuedPrefix(inc: seq<Update>, q: Queue, from: seq<nat>, p: Packet, a: nat, c: Consumer)
    returns (from': seq<nat>)
    requires Prefix(inc, q, from) && PacketOk(inc, p, a) && c.snapshots == q
    requires from != [] ==> q[|from| - 1].kind != SNAPSHOT_END
    requires forall i :: 0 <= i < |from| ==> from[i] <= a
    ensures var q' := Enqueue(c, true, p).snapshots;
            Prefix(inc, q', from') || !Consecutive(q')
    ensures from' == [a] || from' == from + [a]
  {
    hide PacketOk;
    var q' := Enqueue(c, true, p).snapshots;
    assert PacketOk(inc, Packet(p.seqNum, p.update), a);
    PacketNumber(inc, p, a);
    if p.seqNum == 0 {
      from' := [a];
      assert q' == map[0 := p.update] && |q'| == 1;
    } else if p.seqNum == |q| {
      from' := from + [a];
      assert q' == q[p.seqNum := p.update];
      assert |q'| == |q| + 1;
      forall i | 0 <= i < |from'|
        ensures PacketOk(inc, Packet(i, q'[i]), from'[i]) && (i < |from'| - 1 ==> q'[i].kind != SNAPSHOT_END)
      {
        if i < |from| {
          assert PacketOk(inc, Packet(i, q[i]), from[i]);
        }
      }
    } else {
      from' := [a];
      if p.seqNum in q {
        assert q' == map[p.seqNum := p.update] && |q'| == 1;
      } else {
        assert q' == q[p.seqNum := p.update] && |q'| == |q| + 1;
      }
      assert p.seqNum in q' && p.seqNum >= |q'|;
    }
  }

  lemma PacketNumber(inc: seq<Update>, p: Packet, a: nat)
    requires PacketOk(inc, p, a)
    ensures p.seqNum >= 0
  {
  }

  lemma EnqueuedIncrementals(inc: seq<Update>, c: Consumer, k: nat, n: int)
    requires QueuedOk(inc, c.incrementals) && 1 <= k <= |inc|
    requires Recovering(c.incrementals, n) || k > n + 1
    ensures var c' := Enqueue(c, false, Packet(k, inc[k - 1]));
            && QueuedOk(inc, c'.incrementals) && Recovering(c'.incrementals, n)
            && c' == c.(incrementals := c'.incrementals)
  {
    var c' := Enqueue(c, false, Packet(k, inc[k - 1]));
    assert k in c'.incrementals;
    if Recovering(c.incrementals, n) {
      var j :| j in c.incrementals && j > n + 1;
      assert j in c'.incrementals;
    }
  }

  /** The next incremental in order: forwarded at once. */
  lemma NextForwarded(inc: seq<Update>, emitted: seq<Update>, n: nat)
    requires Clean(map[], inc) && Forwarded(inc, emitted, n) && n < |inc|
    ensures Forwarded(inc, emitted + [inc[n]], n + 1)
  {
    CleanPrefix(map[], inc, n);
    CleanPrefix(map[], inc, n + 1);
    assert inc[..n + 1] == inc[..n] + [inc[n]];
    ReplayOne(map[], inc[..n], inc[n]);
    ReplayOne(map[], emitted, inc[n]);
    SoundOne(MarketAt(inc, n), inc[n]);
    SoundConcat(map[], emitted, [inc[n]]);
  }

  /** An incremental arrives at the consumer. */
  lemma IncrementalReceived(inc: seq<Update>, c: Consumer, k: nat, from: seq<nat>, n: int)
    returns (from': seq<nat>, n': int)
    requires Clean(map[], inc) && ConsumerOk(inc, c, from, n) && 1 <= k <= |inc|
    ensures var c' := Receive(c, false, Packet(k, inc[k - 1]));
            && ConsumerOk(inc, c', from', n') && (from' == [] || from' == from)
            && Progress(c, c', n, n')
  {
    hide Clean, Forwarded, SnapshotAt, PacketOk, Sync, Enqueue, Recovering;
    var p := Packet(k, inc[k - 1]);
    from', n' := from, n;
    if c.inRecovery {
      EnqueuedIncrementals(inc, c, k, n);
      from', n' := SyncKeeps(inc, Enqueue(c, false, p), from, n);
    } else if k > c.nextExp {
      var c1 := c.(inRecovery := true, snapshots := map[], incrementals := map[]);
      NothingQueued(inc);
      EnqueuedIncrementals(inc, c1, k, n);
      from', n' := SyncKeeps(inc, Enqueue(c1, false, p), [], n);
    } else if k == c.nextExp {
      NextForwarded(inc, c.emitted, n);
      n' := n + 1;
    }
  }

  /** In recovery the consumer stays where it was; coming out of it, it is past the gap. */
  predicate Progress(c: Consumer, c': Consumer, n: int, n': int) {
    && (c'.inRecovery ==> n' == n) && n <= n'
    && (c.inRecovery && !c'.inRecovery ==> n + 1 < c'.nextExp)
  }

  /** A snapshot packet of a cycle no older than the queued ones arrives at the consumer. */
  lemma SnapshotReceived(inc: seq<Update>, c: Consumer, p: Packet, a: nat, from: seq<nat>, n: int)
    returns (from': seq<nat>, n': int)
    requires Clean(map[], inc) && ConsumerOk(inc, c, from, n) && PacketOk(inc, p, a)
    requires forall i :: 0 <= i < |from| ==> from[i] <= a
    ensures var c' := Receive(c, true, p);
            && ConsumerOk(inc, c', from', n')
            && (from' == [] || from' == from || from' == [a] || from' == from + [a])
            && Progress(c, c', n, n')
  {
    hide Clean, Forwarded, SnapshotAt, PacketOk, Sync, Enqueue, Recovering, Prefix, QueuedOk;
    from', n' := from, n;
    PacketNumber(inc, p, a);
    if c.inRecovery {
      PrefixLength(inc, c.snapshots, from);
      var queued := EnqueuedPrefix(inc, c.snapshots, from, p, a, c);
      EnqueuedSnapshot(c, p, n);
      from', n' := SyncKeeps(inc, Enqueue(c, true, p), queued, n);
    }
  }

  lemma DeliverKeeps(s: System, k: nat, anchors: seq<nat>, from: seq<nat>, n: int)
    returns (from': seq<nat>, n': int)
    requires Inv(s, anchors, from, n) && 1 <= k <= |s.inc|
    ensures var s' := Do(s, Deliver(k));
            Inv(s', anchors, from', n') && Progress(s.consumer, s'.consumer, n, n')
  {
    hide Clean, ConsumerOk, PacketOk, Receive, Nondecreasing;
    from', n' := IncrementalReceived(s.inc, s.consumer, k, from, n);
  }

  lemma DeliverSnapshotKeeps(s: System, k: nat, anchors: seq<nat>, from: seq<nat>, n: int)
    returns (from': seq<nat>, n': int)
    requires s.cursor <= k < |s.sent| && Inv(s, anchors, from, n)
    ensures var s' := s.(cursor := k, consumer := Receive(s.consumer, true, s.sent[k]));
            Inv(s', anchors, from', n') && Progress(s.consumer, s'.consumer, n, n')
  {
    hide Clean, ConsumerOk, PacketOk, Receive, SentOk, Behind;
    AnyPacket(s, anchors, from, k);
    from', n' := SnapshotReceived(s.inc, s.consumer, s.sent[k], anchors[k], from, n);
    StillBehind(s, anchors, from, k, from', Do(s, DeliverSnapshot(k)));
  }

  lemma AnyPacket(s: System, anchors: seq<nat>, from: seq<nat>, k: nat)
    requires SentOk(s, anchors) && Behind(s, anchors, from) && s.cursor <= k < |s.sent|
    ensures k < |anchors| && PacketOk(s.inc, s.sent[k], anchors[k])
    ensures forall i :: 0 <= i < |from| ==> from[i] <= anchors[k]
  {
    assert PacketOk(s.inc, s.sent[k], anchors[k]);
    hide PacketOk;
  }

  lemma PrefixLength(inc: seq<Update>, q: Queue, from: seq<nat>)
    requires Prefix(inc, q, from)
    ensures |from| == |q| && (from != [] ==> |from| - 1 in q)
  {
  }

  lemma EnqueuedSnapshot(c: Consumer, p: Packet, n: int)
    requires Recovering(c.incrementals, n)
    ensures var c' := Enqueue(c, true, p);
            c' == c.(snapshots := c'.snapshots) && Recovering(c'.incrementals, n)
  {
  }

  lemma StillBehind(s: System, anchors: seq<nat>, from: seq<nat>, k: nat, from': seq<nat>, s': System)
    requires s' == s.(cursor := k, consumer := s'.consumer)
    requires SentOk(s, anchors) && Behind(s, anchors, from) && s.cursor <= k < |s.sent|
    requires from' == [] || from' == from || from' == [anchors[k]] || from' == from + [anchors[k]]
    ensures SentOk(s', anchors) && Behind(s', anchors, from')
  {
    hide PacketOk;
    forall i | 0 <= i < |from'|
      ensures from'[i] <= s.anchor && forall j :: k <= j < |s.sent| ==> from'[i] <= anchors[j]
    {
      if i < |from| && from' != [anchors[k]] {
        assert from'[i] == from[i];
      } else {
        assert from'[i] == anchors[k];
        assert forall j :: k < j < |anchors| ==> anchors[k] <= anchors[j];
      }
    }
  }

  // ----- every reachable state -----

  lemma {:induction false} Reachable(actions: seq<Action>) returns (anchors: seq<nat>, from: seq<nat>)
    requires Possible(actions)
    ensures Inv(Run(actions), anchors, from, InStepWith(actions))
    decreases |actions|
  {
    hide Inv, Receive, Snapshot;
    if actions == [] {
      anchors, from := [], [];
      StartsWell();
    } else {
      var before, a := actions[..|actions| - 1], actions[|actions| - 1];
      anchors, from := Reachable(before);
      var s, n := Run(before), InStepWith(before);
      var n' := n;
      match a {
        case Publish(u) => PublishKeeps(s, u, anchors, from, n);
        case AbsorbNext => AbsorbKeeps(s, anchors, from, n);
        case PublishSnapshot => anchors := CycleKeeps(s, anchors, from, n);
        case Deliver(k) => from, n' := DeliverKeeps(s, k, anchors, from, n);
        case DeliverSnapshot(k) => from, n' := DeliverSnapshotKeeps(s, k, anchors, from, n);
      }
      NextInStep(Run(actions), anchors, from, n');
    }
  }

  lemma NextInStep(s: System, anchors: seq<nat>, from: seq<nat>, n: int)
    requires Inv(s, anchors, from, n)
    ensures !s.consumer.inRecovery ==> s.consumer.nextExp == n + 1
  {
  }

  lemma StartsWell()
    ensures Inv(START, [], [], 0)
  {
  }

  /** Recovery is exact. However incrementals were lost, repeated or reordered and snapshot
      packets lost or repeated: whenever the consumer is not recovering, what it forwarded
      amounts, for all symbols, to the incrementals before `nextExp`, and nothing else. */
  lemma RecoveryIsExact(actions: seq<Action>)
    requires Possible(actions) && !Run(actions).consumer.inRecovery
    ensures var s := Run(actions);
            && 1 <= s.consumer.nextExp <= |s.inc| + 1
            && Replay(map[], s.consumer.emitted) == MarketAt(s.inc, s.consumer.nextExp - 1)
  {
    hide Run, Possible, InStepWith;
    var anchors, from := Reachable(actions);
    InvForwarded(Run(actions), anchors, from, InStepWith(actions));
  }

  lemma InvForwarded(s: System, anchors: seq<nat>, from: seq<nat>, n: int)
    requires Inv(s, anchors, from, n)
    ensures Forwarded(s.inc, s.consumer.emitted, n) && (!s.consumer.inRecovery ==> s.consumer.nextExp == n + 1)
  {
    hide Clean, Forwarded, Prefix, SentOk, Behind, QueuedOk;
  }

  /** In any state, recovering or not, what was forwarded can be followed by a mirror
      through uncrossed markets, and amounts to the incrementals up to `InStepWith`. */
  lemma ForwardedIsSound(actions: seq<Action>)
    requires Possible(actions)
    ensures var s, n := Run(actions), InStepWith(actions);
            && 0 <= n <= |s.inc| && Sound(map[], s.consumer.emitted)
            && Replay(map[], s.consumer.emitted) == MarketAt(s.inc, n)
  {
    hide Run, Possible, InStepWith;
    var anchors, from := Reachable(actions);
    InvForwarded(Run(actions), anchors, from, InStepWith(actions));
  }

  /** Progress: the consumer never falls back, and a completed recovery leaves it strictly
      beyond the number it was waiting for when the gap was found. */
  lemma RecoveryAdvances(actions: seq<Action>, a: Action)
    requires Possible(actions) && Enabled(Run(actions), a) && Possible(actions + [a])
    ensures InStepWith(actions) <= InStepWith(actions + [a])
    ensures Run(actions).consumer.inRecovery && !Run(actions + [a]).consumer.inRecovery
            ==> InStepWith(actions) + 1 < Run(actions + [a]).consumer.nextExp
  {
    hide Inv, Receive, Snapshot;
    var all := actions + [a];
    assert all[..|all| - 1] == actions && all[|all| - 1] == a;
    var anchors, from := Reachable(actions);
    var s, n := Run(actions), InStepWith(actions);
    NextInStep(s, anchors, from, n);
    match a {
      case Publish(u) =>
      case AbsorbNext =>
      case PublishSnapshot =>
      case Deliver(k) =>
        var from', n' := DeliverKeeps(s, k, anchors, from, n);
        NextInStep(Run(all), anchors, from', n');
      case DeliverSnapshot(k) =>
        var from', n' := DeliverSnapshotKeeps(s, k, anchors, from, n);
        NextInStep(Run(all), anchors, from', n');
    }
  }

  // ----- recovery completes -----

  /** A number above `a` is missing while a later one is queued. */
  ghost predicate Hole(q: Queue, a: int) {
    exists j, n :: a < j < n && j !in q && n in q
  }

  lemma HoleIsBeyond(q: Queue, a: int)
    ensures Hole(q, a) <==> Beyond(q, FirstMissing(q, a + 1))
  {
    var e := FirstMissing(q, a + 1);
    hide FirstMissing;
    if Beyond(q, e) {
      var n :| n in q && n >= e;
      assert a < e < n && e !in q && n in q;
    }
  }

  /** The first `k` messages of a cycle as a queue. */
  function QueueOf(us: seq<Update>, k: nat): Queue
    requires k <= |us|
  {
    map i: int | 0 <= i < k :: us[i]
  }

  lemma QueueOfNext(us: seq<Update>, k: nat)
    requires k < |us|
    ensures QueueOf(us, k)[k := us[k]] == QueueOf(us, k + 1)
    ensures Consecutive(QueueOf(us, k)) && |QueueOf(us, k)| == k
  {
    QueueOfSize(us, k);
  }

  lemma {:induction false} QueueOfSize(us: seq<Update>, k: nat)
    requires k <= |us|
    ensures |QueueOf(us, k)| == k
  {
    var q := QueueOf(us, k);
    if k == 0 {
      assert q == map[];
    } else {
      QueueOfSize(us, k - 1);
      var before := QueueOf(us, k - 1);
      assert q.Keys == before.Keys + {k - 1};
      assert |q.Keys| == |q| && |before.Keys| == |before|;
    }
  }

  /** One packet of a cycle, in order, before the last: it joins the queue and nothing else happens. */
  lemma NextOfCycle(c: Consumer, us: seq<Update>, k: nat)
    requires c.inRecovery && k + 1 < |us| && us[0].kind == SNAPSHOT_START && us[k].kind != SNAPSHOT_END
    requires k > 0 ==> c.snapshots == QueueOf(us, k)
    ensures Receive(c, true, Packet(k, us[k])) == c.(snapshots := QueueOf(us, k + 1))
  {
    hide FirstMissing, Messages, Payload;
    QueueOfNext(us, k);
    QueueOfNext(us, k + 1);
    var queued := Enqueue(c, true, Packet(k, us[k]));
    if k == 0 {
      assert QueueOf(us, 0) == map[];
    } else {
      assert k !in c.snapshots;
    }
    assert queued == c.(snapshots := QueueOf(us, k + 1));
    assert QueueOf(us, k + 1)[k] == us[k];
  }

  /** An incremental that arrives between two packets of a cycle is queued and nothing else happens. */
  lemma BetweenPackets(c: Consumer, us: seq<Update>, k: nat, p: Packet)
    requires c.inRecovery && 0 < k < |us| && us[0].kind == SNAPSHOT_START && us[k - 1].kind != SNAPSHOT_END
    requires c.snapshots == QueueOf(us, k) && p.seqNum >= 0
    ensures Receive(c, false, p) == c.(incrementals := c.incrementals[p.seqNum := p.update])
  {
    hide FirstMissing, Messages, Payload;
    QueueOfNext(us, k);
    assert c.snapshots[k - 1] == us[k - 1] && c.snapshots[0] == us[0];
  }

  lemma LastOfCycle(c: Consumer, us: seq<Update>, a: nat)
    requires c.inRecovery && |us| >= 2 && c.snapshots == QueueOf(us, |us| - 1)
    requires us[0] == Start(a) && us[|us| - 1] == End(a)
    ensures var c' := Receive(c, true, Packet(|us| - 1, us[|us| - 1]));
            var e := FirstMissing(c.incrementals, a + 1);
            (c'.inRecovery <==> Beyond(c.incrementals, e)) && c'.nextExp == e
  {
    hide FirstMissing, Messages, Payload, Sync;
    var last := |us| - 1;
    QueueOfNext(us, last);
    var queued := Enqueue(c, true, Packet(last, us[last]));
    assert last !in c.snapshots;
    assert queued == c.(snapshots := QueueOf(us, last)[last := us[last]]);
    WholeQueue(us);
    SyncAtEnd(queued);
  }

  lemma WholeQueue(us: seq<Update>)
    requires us != []
    ensures var q := QueueOf(us, |us|);
            Consecutive(q) && |q| == |us| && q[0] == us[0] && q[|us| - 1] == us[|us| - 1]
  {
    QueueOfSize(us, |us|);
  }

  function DeliverRange(k: nat, n: nat): (actions: seq<Action>)
    ensures |actions| == n
  {
    seq(n, i requires 0 <= i < n => DeliverSnapshot(k + i))
  }

  lemma OneMoreAction(actions: seq<Action>, a: Action)
    requires Possible(actions) && Enabled(Run(actions), a)
    ensures Possible(actions + [a]) && Run(actions + [a]) == Do(Run(actions), a)
  {
    hide Enabled, Do;
    assert (actions + [a])[..|actions|] == actions;
  }

  /** The snapshot packets that have arrived since the first `from` actions, oldest first. */
  ghost function Arrived(actions: seq<Action>, from: nat): seq<Packet>
    requires Possible(actions) && from <= |actions|
    decreases |actions|
  {
    if |actions| == from then []
    else
      var before, a := actions[..|actions| - 1], actions[|actions| - 1];
      Arrived(before, from) + if a.DeliverSnapshot? then [Run(before).sent[a.position]] else []
  }

  lemma {:induction false} PossiblePrefix(actions: seq<Action>, n: nat)
    requires Possible(actions) && n <= |actions|
    ensures Possible(actions[..n])
    decreases |actions|
  {
    if n == |actions| {
      assert actions[..n] == actions;
    } else {
      assert actions[..|actions| - 1][..n] == actions[..n];
      PossiblePrefix(actions[..|actions| - 1], n);
    }
  }

  /** The state after the first `n` actions. */
  ghost function StateAt(actions: seq<Action>, n: nat): System
    requires Possible(actions) && n <= |actions|
  {
    PossiblePrefix(actions, n);
    Run(actions[..n])
  }

  /** The numbers of the incrementals that have arrived since the first `from` actions. */
  function NumbersSince(actions: seq<Action>, from: nat): set<int> {
    set i | from <= i < |actions| && actions[i].Deliver? :: actions[i].number
  }

  lemma NumbersNext(actions: seq<Action>, from: nat)
    requires from < |actions|
    ensures var before, a := actions[..|actions| - 1], actions[|actions| - 1];
            NumbersSince(actions, from) == NumbersSince(before, from) + if a.Deliver? then {a.number} else {}
  {
    var before := actions[..|actions| - 1];
    forall n | n in NumbersSince(actions, from)
      ensures n in NumbersSince(before, from) || (actions[|actions| - 1].Deliver? && n == actions[|actions| - 1].number)
    {
      var i :| from <= i < |actions| && actions[i].Deliver? && actions[i].number == n;
      assert i < |before| ==> before[i] == actions[i];
    }
    forall n | n in NumbersSince(before, from)
      ensures n in NumbersSince(actions, from)
    {
      var i :| from <= i < |before| && before[i].Deliver? && before[i].number == n;
      assert actions[i] == before[i];
    }
  }

  /** One action while a cycle is on its way: only the next packet and incrementals matter. */
  lemma CycleStep(s: System, a: Action, us: seq<Update>, k: nat)
    requires Enabled(s, a) && s.consumer.inRecovery && 0 < k < |us| && s.consumer.snapshots == QueueOf(us, k)
    requires us[0].kind == SNAPSHOT_START && us[k - 1].kind != SNAPSHOT_END
    requires a.DeliverSnapshot? ==> k + 1 < |us| && us[k].kind != SNAPSHOT_END && s.sent[a.position] == Packet(k, us[k])
    ensures var c, c' := s.consumer, Do(s, a).consumer;
            && c'.inRecovery
            && c'.snapshots == QueueOf(us, if a.DeliverSnapshot? then k + 1 else k)
            && c'.incrementals.Keys == c.incrementals.Keys + if a.Deliver? then {a.number} else {}
  {
    hide Receive, QueueOf;
    match a {
      case Deliver(n) => BetweenPackets(s.consumer, us, k, Packet(n, s.inc[n - 1]));
      case DeliverSnapshot(_) => NextOfCycle(s.consumer, us, k);
      case _ =>
    }
  }

  /** A cycle that has begun and not ended, with anything else between its packets: the queue holds
      what has arrived of it, and the incrementals are all kept. */
  lemma {:induction false} CycleUnderWay(actions: seq<Action>, from: nat, us: seq<Update>)
    requires Possible(actions) && from < |actions| && actions[from].DeliverSnapshot?
    requires StateAt(actions, from).consumer.inRecovery
    requires |us| >= 2 && us[0].kind == SNAPSHOT_START
    requires forall i :: 0 <= i < |us| - 1 ==> us[i].kind != SNAPSHOT_END
    requires Arrived(actions, from) < Numbered(us)
    ensures var c, k := Run(actions).consumer, |Arrived(actions, from)|;
            && 0 < k < |us| && c.inRecovery && c.snapshots == QueueOf(us, k)
            && c.incrementals.Keys
               == StateAt(actions, from).consumer.incrementals.Keys + NumbersSince(actions, from)
    decreases |actions|
  {
    hide Receive, Numbered, NumbersSince, QueueOf, Run, Possible, Arrived, Do, Enabled;
    PacketOf(us, 0);
    NumbersNext(actions, from);
    LastAction(actions, from);
    var before, a := actions[..|actions| - 1], actions[|actions| - 1];
    if |before| == from {
      assert before == actions[..from];
      NothingSince(before);
      FirstOfCycle(Run(before), a, us);
    } else {
      assert before[..from] == actions[..from];
      CycleUnderWay(before, from, us);
      var k := |Arrived(before, from)|;
      if a.DeliverSnapshot? {
        assert Arrived(actions, from)[k] == Run(before).sent[a.position];
        PacketOf(us, k);
      }
      CycleStep(Run(before), a, us, k);
    }
  }

  lemma FirstOfCycle(s: System, a: Action, us: seq<Update>)
    requires Enabled(s, a) && a.DeliverSnapshot? && s.consumer.inRecovery
    requires |us| >= 2 && us[0].kind == SNAPSHOT_START && s.sent[a.position] == Packet(0, us[0])
    ensures Do(s, a).consumer == s.consumer.(snapshots := QueueOf(us, 1))
  {
    hide Receive, QueueOf;
    NextOfCycle(s.consumer, us, 0);
  }

  /** A run and what has arrived, taken apart at the last action. */
  lemma LastAction(actions: seq<Action>, from: nat)
    requires Possible(actions) && from < |actions|
    ensures var before, a := actions[..|actions| - 1], actions[|actions| - 1];
            && Possible(before) && Enabled(Run(before), a) && Run(actions) == Do(Run(before), a)
            && Arrived(actions, from)
               == Arrived(before, from) + (if a.DeliverSnapshot? then [Run(before).sent[a.position]] else [])
            && (|before| == from ==> Arrived(before, from) == [])
  {
  }

  lemma LastDelivered(s: System, d: Action, us: seq<Update>, a: nat)
    requires Enabled(s, d) && d.DeliverSnapshot? && s.consumer.inRecovery && |us| >= 2
    requires s.consumer.snapshots == QueueOf(us, |us| - 1) && us[0] == Start(a) && us[|us| - 1] == End(a)
    requires s.sent[d.position] == Packet(|us| - 1, us[|us| - 1])
    ensures var c' := Do(s, d).consumer;
            var e := FirstMissing(s.consumer.incrementals, a + 1);
            (c'.inRecovery <==> Beyond(s.consumer.incrementals, e)) && c'.nextExp == e
  {
    hide Receive, FirstMissing;
    LastOfCycle(s.consumer, us, a);
  }

  lemma PacketOf(us: seq<Update>, k: nat)
    requires k < |us|
    ensures |Numbered(us)| == |us| && Numbered(us)[k] == Packet(k, us[k])
  {
  }

  lemma NothingSince(actions: seq<Action>)
    ensures NumbersSince(actions, |actions|) == {}
  {
  }

  /** Completion. While the consumer recovers, the packets of one whole cycle and no other snapshot
      packets arrive in order, with anything else - incrementals above all - between them. The last
      packet ends the recovery if and only if the incrementals queued by then, those that came
      during the cycle included, have no hole above the anchor. */
  lemma RecoveryCompletes(actions: seq<Action>, from: nat, a: nat)
    requires Possible(actions) && from < |actions|
    requires actions[from].DeliverSnapshot? && actions[|actions| - 1].DeliverSnapshot?
    requires StateAt(actions, from).consumer.inRecovery
    requires a <= |Run(actions).inc| && Arrived(actions, from) == Numbered(SnapshotAt(Run(actions).inc, a))
    ensures var q, c := StateAt(actions, |actions| - 1).consumer.incrementals, Run(actions).consumer;
            && q.Keys == StateAt(actions, from).consumer.incrementals.Keys + NumbersSince(actions, from)
            && (c.inRecovery <==> Hole(q, a))
            && c.nextExp == FirstMissing(q, a + 1)
  {
    hide Run, Possible, Arrived, Receive, Snapshot, FirstMissing, Hole, NumbersSince, Numbered, Do, Enabled;
    var us := SnapshotAt(Run(actions).inc, a);
    var last := |us| - 1;
    MarkersOfSnapshot(MarketAt(Run(actions).inc, a), a);
    assert forall i :: 0 < i < last ==> !IsMarker(us[i]);
    PacketOf(us, last);
    LastAction(actions, from);
    var before := actions[..|actions| - 1];
    assert |before| != from;
    assert before[..from] == actions[..from];
    CycleUnderWay(before, from, us);
    LastDelivered(Run(before), actions[|actions| - 1], us, a);
    HoleIsBeyond(Run(before).consumer.incrementals, a);
    NumbersNext(actions, from);
  }

  // ----- a cycle that nothing interrupts -----

  /** Packets from `k` on, delivered one after the other without a loss. */
  lemma {:induction false} RangeArrives(actions: seq<Action>, k: nat, n: nat)
    requires Possible(actions) && Run(actions).cursor <= k && k + n <= |Run(actions).sent|
    ensures var s, all := Run(actions), actions + DeliverRange(k, n);
            && Possible(all) && Arrived(all, |actions|) == s.sent[k..k + n]
            && Run(all).inc == s.inc && Run(all).sent == s.sent
            && Run(all).cursor == if n == 0 then s.cursor else k + n - 1
    decreases n
  {
    hide Receive, Run, Possible, Arrived;
    var s, all := Run(actions), actions + DeliverRange(k, n);
    if n == 0 {
      assert all == actions && s.sent[k..k] == [];
      NoneArrived(actions);
    } else {
      RangeArrives(actions, k, n - 1);
      var before, last := actions + DeliverRange(k, n - 1), DeliverSnapshot(k + n - 1);
      assert all == before + [last];
      OneMoreAction(before, last);
      OneMoreArrived(before, |actions|, last);
      assert s.sent[k..k + n] == s.sent[k..k + n - 1] + [s.sent[k + n - 1]];
    }
  }

  lemma NoneArrived(actions: seq<Action>)
    requires Possible(actions)
    ensures Arrived(actions, |actions|) == []
  {
  }

  lemma OneMoreArrived(actions: seq<Action>, from: nat, a: Action)
    requires Possible(actions) && Possible(actions + [a]) && from <= |actions| && Enabled(Run(actions), a)
    ensures Arrived(actions + [a], from)
         == Arrived(actions, from) + if a.DeliverSnapshot? then [Run(actions).sent[a.position]] else []
  {
    hide Run;
    assert (actions + [a])[..|actions|] == actions;
  }

  lemma RangeHasNoNumbers(actions: seq<Action>, k: nat, n: nat)
    ensures NumbersSince(actions + DeliverRange(k, n), |actions|) == {}
  {
    var all := actions + DeliverRange(k, n);
    assert forall i :: |actions| <= i < |all| ==> all[i] == DeliverSnapshot(k + (i - |actions|));
  }

  /** Only the numbers queued matter. */
  lemma SameNumbers(q: Queue, q': Queue, a: int)
    requires q.Keys == q'.Keys
    ensures (Hole(q, a) <==> Hole(q', a)) && FirstMissing(q, a + 1) == FirstMissing(q', a + 1)
  {
    assert forall n :: n in q <==> n in q.Keys;
    assert forall n :: n in q' <==> n in q'.Keys;
    hide FirstMissing;
    FirstMissingIs(q', a + 1, FirstMissing(q, a + 1));
  }

  /** So a recovering consumer is done as soon as the packets of a cycle whose anchor leaves no
      hole come through in one go. */
  lemma WholeCycleSuffices(actions: seq<Action>, k: nat, a: nat)
    requires Possible(actions) && Run(actions).consumer.inRecovery
    requires var s := Run(actions);
             && a <= |s.inc| && s.cursor <= k
             && Numbered(SnapshotAt(s.inc, a)) <= s.sent[Min(k, |s.sent|)..]
    ensures var s := Run(actions);
            var all := actions + DeliverRange(k, |SnapshotAt(s.inc, a)|);
            && Possible(all)
            && (Run(all).consumer.inRecovery <==> Hole(s.consumer.incrementals, a))
            && Run(all).consumer.nextExp == FirstMissing(s.consumer.incrementals, a + 1)
  {
    hide Run, Possible, Arrived, Snapshot, FirstMissing, Hole, NumbersSince;
    var s := Run(actions);
    var cycle := Numbered(SnapshotAt(s.inc, a));
    var all := actions + DeliverRange(k, |cycle|);
    MarkersOfSnapshot(MarketAt(s.inc, a), a);
    assert s.sent[k..k + |cycle|] == cycle;
    RangeArrives(actions, k, |cycle|);
    assert all[..|actions|] == actions;
    RecoveryCompletes(all, |actions|, a);
    var q := StateAt(all, |all| - 1).consumer.incrementals;
    RangeHasNoNumbers(actions, k, |cycle|);
    assert q.Keys == s.consumer.incrementals.Keys;
    SameNumbers(q, s.consumer.incrementals, a);
  }
}
