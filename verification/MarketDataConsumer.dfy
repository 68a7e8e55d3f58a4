/** The consumer of the two market data streams: forwards incrementals in order and
    recovers from a gap with a snapshot and the incrementals queued since. */
module MarketDataConsumers {
  import opened Types
  import opened Markets
  import opened Snapshots
  import opened ConsumerSpecs

  ghost predicate Ascending(keys: seq<int>) {
    forall i, j :: 0 <= i < j < |keys| ==> keys[i] < keys[j]
  }

  ghost predicate Enumerates(keys: seq<int>, q: Queue) {
    Ascending(keys) && forall k :: k in keys <==> k in q
  }

  lemma LeastExists(s: set<int>)
    requires s != {}
    ensures exists k :: k in s && forall j :: j in s ==> k <= j
  {
    if x :| x in s {
      if s != {x} {
        LeastExists(s - {x});
        var k :| k in s - {x} && forall j :: j in s - {x} ==> k <= j;
        var least := if k <= x then k else x;
        forall j | j in s
          ensures least <= j
        {
          assert j != x ==> j in s - {x};
        }
      }
    } else {
      NoElements(s);
    }
  }

  lemma NoElements(s: set<int>)
    requires forall x :: x !in s
    ensures s == {}
  {
    assert forall x :: x in s ==> x in {};
    assert s <= {};
  }

  /** The keys of a queue in the order of iteration. */
  method KeysOf(q: Queue) returns (keys: seq<int>)
    ensures Enumerates(keys, q)
  {
    keys := [];
    var rest := q.Keys;
    while rest != {}
      invariant Ascending(keys) && rest <= q.Keys
      invariant forall k :: k in q <==> k in keys || k in rest
      invariant forall i, k :: 0 <= i < |keys| && k in rest ==> keys[i] < k
      decreases rest
    {
      LeastExists(rest);
      var k :| k in rest && forall j :: j in rest ==> k <= j;
      keys, rest := keys + [k], rest - {k};
    }
  }

  class MarketDataConsumer {
    var nextExp: int
    var inRecovery: bool
    var snapshotQueue: Queue
    var incrementalQueue: Queue
    /** Everything written to the queue of the trade engine. */
    var emitted: seq<Update>

    ghost function State(): Consumer
      reads this
    {
      Consumer(nextExp, inRecovery, snapshotQueue, incrementalQueue, emitted)
    }

    constructor ()
      ensures State() == INITIAL
    {
      nextExp, inRecovery := 1, false;
      snapshotQueue, incrementalQueue, emitted := map[], map[], [];
    }

    method StartSnapshotSync()
      modifies this`snapshotQueue, this`incrementalQueue
      ensures snapshotQueue == map[] && incrementalQueue == map[]
    {
      snapshotQueue := map[];
      incrementalQueue := map[];
    }

    /** Collects the snapshot if its numbers have no gap. */
    method CollectSnapshot() returns (complete: bool, events: seq<Update>)
      requires snapshotQueue != map[]
      ensures complete <==> Consecutive(snapshotQueue)
      ensures complete ==> events == Payload(Messages(snapshotQueue, 0, |snapshotQueue|))
    {
      var keys := KeysOf(snapshotQueue);
      events := [];
      var next := 0;
      while next < |keys|
        invariant 0 <= next <= |keys|
        invariant forall k :: 0 <= k < next ==> keys[k] == k && k in snapshotQueue
        invariant events == Payload(Messages(snapshotQueue, 0, next))
      {
        assert keys[next] in snapshotQueue;
        if keys[next] != next {
          GapAt(snapshotQueue, keys, next);
          return false, events;
        }
        var update := snapshotQueue[next];
        OneMore(snapshotQueue, 0, next);
        if !IsMarker(update) {
          events := events + [update];
        }
        next := next + 1;
      }
      NoGap(snapshotQueue, keys);
      return true, events;
    }

    /** Collects the queued incrementals from `nextExp` on, if there is no gap up to the last. */
    method CollectIncrementals() returns (complete: bool, events: seq<Update>)
      modifies this`nextExp
      ensures nextExp == FirstMissing(incrementalQueue, old(nextExp))
      ensures complete <==> !exists k :: k in incrementalQueue && k >= nextExp
      ensures complete ==> events == Payload(Messages(incrementalQueue, old(nextExp), nextExp))
    {
      var keys := KeysOf(incrementalQueue);
      events := [];
      var i := 0;
      while i < |keys|
        invariant 0 <= i <= |keys| && old(nextExp) <= nextExp
        invariant forall k :: old(nextExp) <= k < nextExp ==> k in incrementalQueue
        invariant forall j :: 0 <= j < i ==> keys[j] < nextExp
        invariant events == Payload(Messages(incrementalQueue, old(nextExp), nextExp))
      {
        assert keys[i] in incrementalQueue;
        if keys[i] < nextExp {
          i := i + 1;
          continue;
        }
        if keys[i] != nextExp {
          MissingBefore(incrementalQueue, keys, i, nextExp);
          FirstMissingIs(incrementalQueue, old(nextExp), nextExp);
          return false, events;
        }
        var update := incrementalQueue[keys[i]];
        OneMore(incrementalQueue, old(nextExp), nextExp);
        if !IsMarker(update) {
          events := events + [update];
        }
        nextExp := nextExp + 1;
        i := i + 1;
      }
      AllBefore(incrementalQueue, keys, nextExp);
      FirstMissingIs(incrementalQueue, old(nextExp), nextExp);
      return true, events;
    }

    method CheckSnapshotSync()
      modifies this
      ensures State() == Sync(old(State()))
    {
      hide Payload, Messages, FirstMissing, Enumerates;
      if snapshotQueue == map[] {
        return;
      }
      var keys := KeysOf(snapshotQueue);
      QueueEnds(snapshotQueue, keys);
      var first, last := snapshotQueue[keys[0]], snapshotQueue[keys[|keys| - 1]];
      if first.kind != SNAPSHOT_START {
        snapshotQueue := map[];
        return;
      }
      var complete, snapshotEvents := CollectSnapshot();
      if !complete {
        snapshotQueue := map[];
        return;
      }
      if last.kind != SNAPSHOT_END {
        return;
      }
      if first.orderId != last.orderId {
        snapshotQueue := map[];
        return;
      }
      nextExp := last.orderId + 1;
      var noGap, incrementalEvents := CollectIncrementals();
      if !noGap {
        snapshotQueue := map[];
        return;
      }
      emitted := emitted + (snapshotEvents + incrementalEvents);
      snapshotQueue := map[];
      incrementalQueue := map[];
      inRecovery := false;
      assert emitted == old(emitted) + snapshotEvents + incrementalEvents;
    }

    method QueueMessage(isSnapshot: bool, p: Packet)
      modifies this
      ensures State() == Sync(Enqueue(old(State()), isSnapshot, p))
    {
      hide Sync;
      if isSnapshot {
        if p.seqNum == 0 {
          snapshotQueue := map[];
        }
        if p.seqNum in snapshotQueue {
          snapshotQueue := map[];
        }
        snapshotQueue := snapshotQueue[p.seqNum := p.update];
      } else {
        incrementalQueue := incrementalQueue[p.seqNum := p.update];
      }
      assert State() == Enqueue(old(State()), isSnapshot, p);
      CheckSnapshotSync();
    }

    /** All packets that one read of a socket brought. */
    method RecvCallback(isSnapshot: bool, packets: seq<Packet>)
      modifies this
      ensures State() == ReceiveAll(old(State()), isSnapshot, packets)
      ensures old(!inRecovery && nextExp >= 0) ==>
                && (isSnapshot ==> State() == old(State()))
                && (!isSnapshot && |packets| == 1 ==> LiveLaw(old(State()), packets[0], State()))
                && (!isSnapshot && NoJump(old(nextExp), packets) ==>
                      var news := InSequence(old(nextExp), packets);
                      State() == old(State()).(nextExp := old(nextExp) + |news|, emitted := old(emitted) + news))
    {
      hide Sync, Enqueue;
      if !inRecovery && nextExp >= 0 {
        BufferOutsideRecovery(State(), packets);
      }
      if isSnapshot && !inRecovery {
        NothingReceived(State(), packets);
        return;
      }
      var i := 0;
      while i < |packets|
        invariant 0 <= i <= |packets|
        invariant State() == ReceiveAll(old(State()), isSnapshot, packets[..i])
      {
        var request := packets[i];
        ghost var before := State();
        assert packets[..i + 1][..i] == packets[..i] && packets[..i + 1][i] == request;
        i := i + 1;
        if request.seqNum < 0 {
          continue;
        }
        if isSnapshot && !inRecovery {
          continue;
        }
        if !isSnapshot && !inRecovery && request.seqNum < nextExp {
          continue;
        }
        var alreadyInRecovery := inRecovery;
        inRecovery := alreadyInRecovery || request.seqNum != nextExp;
        if inRecovery {
          if !alreadyInRecovery {
            StartSnapshotSync();
          }
          QueueMessage(isSnapshot, request);
        } else if !isSnapshot {
          nextExp := nextExp + 1;
          emitted := emitted + [request.update];
        }
        assert State() == Receive(before, isSnapshot, request);
      }
      assert packets[..i] == packets;
    }
  }

  /** What a buffer does outside recovery. */
  lemma BufferOutsideRecovery(c: Consumer, packets: seq<Packet>)
    requires !c.inRecovery && c.nextExp >= 0
    ensures ReceiveAll(c, true, packets) == c
    ensures |packets| == 1 ==> LiveLaw(c, packets[0], ReceiveAll(c, false, packets))
    ensures NoJump(c.nextExp, packets) ==>
              var news := InSequence(c.nextExp, packets);
              ReceiveAll(c, false, packets) == c.(nextExp := c.nextExp + |news|, emitted := c.emitted + news)
  {
    hide Receive, LiveLaw, InSequence, NoJump;
    NothingReceived(c, packets);
    if |packets| == 1 {
      LiveReceive(c, packets[0]);
      assert ReceiveAll(c, false, packets[..0]) == c;
    }
    if NoJump(c.nextExp, packets) {
      BufferForwarded(c, packets);
    }
  }

  /** Outside recovery snapshot packets change nothing. */
  lemma {:induction false} NothingReceived(c: Consumer, packets: seq<Packet>)
    requires !c.inRecovery
    ensures ReceiveAll(c, true, packets) == c
  {
    if packets == [] {
    } else {
      NothingReceived(c, packets[..|packets| - 1]);
    }
  }

  lemma OneMore(q: Queue, from: int, end: int)
    requires from <= end && forall k :: from <= k <= end ==> k in q
    ensures Payload(Messages(q, from, end + 1))
            == Payload(Messages(q, from, end)) + (if IsMarker(q[end]) then [] else [q[end]])
  {
    assert Messages(q, from, end + 1) == Messages(q, from, end) + [q[end]];
    PayloadConcat(Messages(q, from, end), [q[end]]);
    assert [q[end]][1..] == [];
  }

  /** Ascending numbers keep their distance. */
  lemma {:induction false} AscendingGap(keys: seq<int>, i: nat, j: nat)
    requires Ascending(keys) && i <= j < |keys|
    ensures keys[j] >= keys[i] + (j - i)
  {
    if i >= j {
    } else {
      AscendingGap(keys, i, j - 1);
      assert keys[j - 1] < keys[j];
    }
  }

  lemma GapAt(q: Queue, keys: seq<int>, next: nat)
    requires Enumerates(keys, q) && next < |keys| && keys[next] != next
    ensures !Consecutive(q)
  {
    KeyCount(q, keys);
    AscendingGap(keys, 0, next);
    AscendingGap(keys, next, |keys| - 1);
    assert keys[0] in keys && keys[|keys| - 1] in keys;
  }

  lemma NoGap(q: Queue, keys: seq<int>)
    requires Enumerates(keys, q) && forall k :: 0 <= k < |keys| ==> keys[k] == k
    ensures Consecutive(q) && |q| == |keys|
  {
    KeyCount(q, keys);
    forall k
      ensures k in q <==> 0 <= k < |q|
    {
      if 0 <= k < |q| {
        assert keys[k] in keys;
      }
      if k in q {
        var i :| 0 <= i < |keys| && keys[i] == k;
      }
    }
  }

  lemma {:induction false} KeyCount(q: Queue, keys: seq<int>)
    requires Enumerates(keys, q)
    ensures |q| == |keys|
    decreases |keys|
  {
    if keys == [] {
      assert forall k :: k !in q.Keys;
      assert q.Keys == {};
    } else {
      var k := keys[|keys| - 1];
      var keys', q' := keys[..|keys| - 1], q - {k};
      assert k in keys;
      assert forall j :: j in keys' <==> j in keys && j != k;
      KeyCount(q', keys');
      assert q.Keys == q'.Keys + {k};
    }
  }

  lemma MissingBefore(q: Queue, keys: seq<int>, i: nat, next: int)
    requires Enumerates(keys, q) && i < |keys| && keys[i] > next
    requires forall j :: 0 <= j < i ==> keys[j] < next
    ensures next !in q && exists k :: k in q && k >= next
  {
    assert keys[i] in q;
    forall k | k in q
      ensures k != next
    {
      var j :| 0 <= j < |keys| && keys[j] == k;
    }
  }

  lemma AllBefore(q: Queue, keys: seq<int>, next: int)
    requires Enumerates(keys, q) && forall j :: 0 <= j < |keys| ==> keys[j] < next
    ensures next !in q && !exists k :: k in q && k >= next
  {
    forall k | k in q
      ensures k < next
    {
      var j :| 0 <= j < |keys| && keys[j] == k;
    }
  }

  /** First and last message in iteration order; in a queue without gaps these are the
      messages 0 and |q| - 1. */
  lemma QueueEnds(q: Queue, keys: seq<int>)
    requires Enumerates(keys, q) && q != map[]
    ensures keys != [] && keys[0] in q && keys[|keys| - 1] in q
    ensures Consecutive(q) ==> keys[0] == 0 && keys[|keys| - 1] == |q| - 1
  {
    KeyCount(q, keys);
    assert keys[0] in keys && keys[|keys| - 1] in keys;
    if Consecutive(q) {
      assert 0 in keys && |q| - 1 in keys;
      var i :| 0 <= i < |keys| && keys[i] == 0;
      var j :| 0 <= j < |keys| && keys[j] == |q| - 1;
    }
  }
}
