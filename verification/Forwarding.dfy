/** What the consumer writes to the trade engine, update by update, and what it keeps while it
    recovers. */
module Forwardings {
  import opened Types
  import opened Markets
  import opened Snapshots
  import opened ConsumerSpecs
  import opened Replications

  // ----- without a gap -----

  /** The largest number of an incremental that has arrived. */
  function Highest(actions: seq<Action>): nat {
    if actions == [] then 0
    else
      var before, a := Highest(actions[..|actions| - 1]), actions[|actions| - 1];
      if a.Deliver? && a.number > before then a.number else before
  }

  /** Every incremental that arrives has arrived before or is the next one. */
  predicate NoGap(actions: seq<Action>) {
    actions == [] ||
    var before, a := actions[..|actions| - 1], actions[|actions| - 1];
    NoGap(before) && (a.Deliver? ==> a.number <= Highest(before) + 1)
  }

  /** Without a gap there is no recovery: incrementals 1 to n have been forwarded as they are, once each
      and in order, however often they came and whatever came of the snapshots, and n + 1 is next. */
  lemma {:induction false} LosslessIsLive(actions: seq<Action>)
    requires Possible(actions) && NoGap(actions)
    ensures var s, n := Run(actions), Highest(actions);
            n <= |s.inc| && s.consumer == Consumer(n + 1, false, map[], map[], s.inc[..n])
    decreases |actions|
  {
    hide Receive, Clean, Snapshot;
    if actions == [] {
    } else {
      var before, a := actions[..|actions| - 1], actions[|actions| - 1];
      LosslessIsLive(before);
      var s, n := Run(before), Highest(before);
      match a {
        case Publish(u) =>
          assert (s.inc + [u])[..n] == s.inc[..n];
        case AbsorbNext =>
        case PublishSnapshot =>
        case Deliver(k) =>
          LiveReceive(s.consumer, Packet(k, s.inc[k - 1]));
          assert k == n + 1 ==> s.inc[..n] + [s.inc[n]] == s.inc[..n + 1];
        case DeliverSnapshot(k) =>
          LiveReceive(s.consumer, s.sent[k]);
      }
    }
  }

  /** The first gap starts a recovery that holds nothing but the incremental it was seen by. */
  lemma GapStartsRecovery(actions: seq<Action>, k: nat)
    requires Possible(actions) && NoGap(actions) && Highest(actions) + 1 < k <= |Run(actions).inc|
    ensures var s, n, all := Run(actions), Highest(actions), actions + [Deliver(k)];
            && Possible(all) && n <= |s.inc|
            && Run(all).consumer == Consumer(n + 1, true, map[], map[k := s.inc[k - 1]], s.inc[..n])
  {
    hide Run, Possible, Receive, Highest, NoGap;
    LosslessIsLive(actions);
    OneMoreAction(actions, Deliver(k));
    LiveReceive(Run(actions).consumer, Packet(k, Run(actions).inc[k - 1]));
  }

  // ----- what a recovery keeps -----

  /** How many actions had happened when the consumer was last outside recovery. */
  ghost function LastLive(actions: seq<Action>): (g: nat)
    requires Possible(actions)
    ensures g <= |actions|
    decreases |actions|
  {
    if actions == [] || !Run(actions).consumer.inRecovery then |actions| else LastLive(actions[..|actions| - 1])
  }

  /** An attempt that does not complete the recovery forwards and loses nothing. */
  lemma SyncKeepsQueued(c: Consumer)
    ensures Sync(c).inRecovery ==> Sync(c).incrementals == c.incrementals && Sync(c).emitted == c.emitted
  {
    hide FirstMissing, Messages, Payload, Consecutive;
  }

  /** A packet that leaves the consumer in recovery: an incremental is queued, and is the only one if it
      started the recovery; nothing is forwarded. */
  lemma StillRecovering(c: Consumer, isSnapshot: bool, p: Packet)
    requires p.seqNum >= 0 && Receive(c, isSnapshot, p).inRecovery
    ensures Receive(c, isSnapshot, p).emitted == c.emitted
    ensures Receive(c, isSnapshot, p).incrementals.Keys
         == (if c.inRecovery then c.incrementals.Keys else {}) + (if isSnapshot then {} else {p.seqNum})
  {
    hide Sync;
    if c.inRecovery {
      SyncKeepsQueued(Enqueue(c, isSnapshot, p));
    } else if !isSnapshot {
      SyncKeepsQueued(Enqueue(c.(inRecovery := true, snapshots := map[], incrementals := map[]), isSnapshot, p));
    }
  }

  /** One action that leaves the consumer in recovery. */
  lemma StepStillRecovering(s: System, a: Action)
    requires Enabled(s, a) && Do(s, a).consumer.inRecovery
    requires forall k :: 0 <= k < |s.sent| ==> s.sent[k].seqNum >= 0
    ensures var c, c' := s.consumer, Do(s, a).consumer;
            && c'.emitted == c.emitted
            && c'.incrementals.Keys
               == (if c.inRecovery then c.incrementals.Keys else {}) + (if a.Deliver? then {a.number} else {})
            && (!c.inRecovery ==> a.Deliver?)
  {
    hide Receive, Snapshot, Clean;
    match a {
      case Deliver(k) => StillRecovering(s.consumer, false, Packet(k, s.inc[k - 1]));
      case DeliverSnapshot(k) =>
        StillRecovering(s.consumer, true, s.sent[k]);
        OnlyInRecovery(s.consumer, s.sent[k]);
      case _ =>
    }
  }

  lemma OnlyInRecovery(c: Consumer, p: Packet)
    ensures Receive(c, true, p).inRecovery ==> c.inRecovery
  {
  }

  /** While it recovers the consumer forwards nothing and keeps every incremental that has arrived since
      the recovery started, the one that started it included, and no other. */
  lemma {:induction false} RecoveryKeepsAll(actions: seq<Action>)
    requires Possible(actions) && Run(actions).consumer.inRecovery
    ensures var c, g := Run(actions).consumer, LastLive(actions);
            && g < |actions| && !StateAt(actions, g).consumer.inRecovery
            && c.incrementals.Keys == NumbersSince(actions, g)
            && c.emitted == StateAt(actions, g).consumer.emitted
    decreases |actions|
  {
    hide NumbersSince, Enabled, Do;
    var before, a := actions[..|actions| - 1], actions[|actions| - 1];
    var s, g := Run(before), LastLive(actions);
    if !s.consumer.inRecovery {
      assert g == LastLive(before) == |before| && actions[..g] == before;
      NothingSince(before);
    } else {
      RecoveryKeepsAll(before);
      assert before[..g] == actions[..g];
    }
    NumbersNext(actions, g);
    SentNumbers(before);
    StepStillRecovering(s, a);
  }

  /** Snapshot packets are numbered from 0. */
  lemma SentNumbers(actions: seq<Action>)
    requires Possible(actions)
    ensures forall k :: 0 <= k < |Run(actions).sent| ==> Run(actions).sent[k].seqNum >= 0
  {
    hide Run, Possible;
    var anchors, from := Reachable(actions);
    hide Clean, ConsumerOk, Snapshot, MarketAt, Behind;
    forall k | 0 <= k < |Run(actions).sent|
      ensures Run(actions).sent[k].seqNum >= 0
    {
      assert PacketOk(Run(actions).inc, Run(actions).sent[k], anchors[k]);
    }
  }

  // ----- every update forwarded -----

  /** What is forwarded at a time: the next incremental, or a snapshot with the incrementals after it. */
  datatype Piece = Live(number: nat) | Recovered(anchor: nat, end: nat)

  /** The number of the last incremental that the pieces include. */
  function EndOf(pieces: seq<Piece>): nat {
    if pieces == [] then 0
    else match pieces[|pieces| - 1]
         case Live(k) => k
         case Recovered(_, end) => end
  }

  /** Each piece goes on where those before it end: the next incremental, or a snapshot from anywhere
      with the incrementals up to a later number. */
  predicate Continues(length: nat, end: nat, piece: Piece) {
    match piece
    case Live(k) => k == end + 1 <= length
    case Recovered(anchor, e) => anchor <= e && end < e <= length
  }

  predicate PiecesOk(length: nat, pieces: seq<Piece>) {
    pieces == [] ||
    var before := pieces[..|pieces| - 1];
    PiecesOk(length, before) && Continues(length, EndOf(before), pieces[|pieces| - 1])
  }

  /** A live incremental as it is; or, of a snapshot, for each symbol its CLEAR and its orders, and then
      the incrementals as they are. */
  ghost function Spoken(inc: seq<Update>, piece: Piece): seq<Update>
    requires exists end :: Continues(|inc|, end, piece)
  {
    match piece
    case Live(k) => [inc[k - 1]]
    case Recovered(anchor, e) => Body(MarketAt(inc, anchor), MAX_SYMBOLS) + inc[anchor..e]
  }

  ghost function SpokenAll(inc: seq<Update>, pieces: seq<Piece>): seq<Update>
    requires PiecesOk(|inc|, pieces)
    decreases |pieces|
  {
    if pieces == [] then []
    else
      var before := pieces[..|pieces| - 1];
      assert Continues(|inc|, EndOf(before), pieces[|pieces| - 1]);
      SpokenAll(inc, before) + Spoken(inc, pieces[|pieces| - 1])
  }

  lemma OneMorePiece(inc: seq<Update>, pieces: seq<Piece>, piece: Piece)
    requires PiecesOk(|inc|, pieces) && Continues(|inc|, EndOf(pieces), piece)
    ensures PiecesOk(|inc|, pieces + [piece]) && EndOf(pieces + [piece]) == EndOf([piece])
    ensures SpokenAll(inc, pieces + [piece]) == SpokenAll(inc, pieces) + Spoken(inc, piece)
  {
    assert (pieces + [piece])[..|pieces|] == pieces;
  }

  /** More incrementals do not change what has been forwarded. */
  lemma {:induction false} SpokenStays(inc: seq<Update>, u: Update, pieces: seq<Piece>)
    requires PiecesOk(|inc|, pieces)
    ensures PiecesOk(|inc| + 1, pieces) && SpokenAll(inc + [u], pieces) == SpokenAll(inc, pieces)
    decreases |pieces|
  {
    hide Body, MarketAt;
    if pieces == [] {
    } else {
      var before, piece := pieces[..|pieces| - 1], pieces[|pieces| - 1];
      SpokenStays(inc, u, before);
      assert Continues(|inc|, EndOf(before), piece) && Continues(|inc| + 1, EndOf(before), piece);
      match piece {
        case Live(k) =>
        case Recovered(anchor, e) =>
          MarketStable(inc, u, anchor);
          assert (inc + [u])[anchor..e] == inc[anchor..e];
      }
    }
  }

  /** An attempt completes only with a queue that begins with a marker, ends with one and has no gap. */
  lemma CompletesAtEnd(c: Consumer)
    requires c.inRecovery && !Sync(c).inRecovery
    ensures var q := c.snapshots;
            && Consecutive(q) && |q| > 0 && q[0].kind == SNAPSHOT_START
            && q[|q| - 1].kind == SNAPSHOT_END && q[0].orderId == q[|q| - 1].orderId
  {
    hide FirstMissing, Messages, Payload;
  }

  /** What a completed recovery forwards. */
  lemma SyncSpeaks(inc: seq<Update>, c: Consumer, from: seq<nat>, n: nat) returns (piece: Piece)
    requires c.inRecovery && Clean(map[], inc) && QueuedOk(inc, c.incrementals)
    requires Recovering(c.incrementals, n)
    requires Prefix(inc, c.snapshots, from) || !Consecutive(c.snapshots)
    ensures !Sync(c).inRecovery ==>
              && piece.Recovered? && Continues(|inc|, n, piece)
              && Sync(c).nextExp == piece.end + 1 && Sync(c).emitted == c.emitted + Spoken(inc, piece)
  {
    hide Clean, Sync, Prefix, QueuedOk, SnapshotAt, Recovering, Messages, Spoken, FirstMissing;
    piece := Live(0);
    if !Sync(c).inRecovery {
      CompletesAtEnd(c);
      PrefixLength(inc, c.snapshots, from);
      WholeSnapshot(inc, c.snapshots, from);
      hide Consecutive;
      piece := CompletionSpeaks(inc, c, n, from[0]);
    }
  }

  lemma CompletionSpeaks(inc: seq<Update>, c: Consumer, n: nat, a: nat) returns (piece: Piece)
    requires c.inRecovery && !Sync(c).inRecovery && Clean(map[], inc) && QueuedOk(inc, c.incrementals)
    requires Recovering(c.incrementals, n)
    requires var q := c.snapshots;
             && Consecutive(q) && |q| > 0 && q[0].kind == SNAPSHOT_START
             && q[|q| - 1].kind == SNAPSHOT_END && q[0].orderId == q[|q| - 1].orderId == a <= |inc|
             && Messages(q, 0, |q|) == SnapshotAt(inc, a)
    ensures piece.Recovered? && Continues(|inc|, n, piece)
    ensures Sync(c).nextExp == piece.end + 1 && Sync(c).emitted == c.emitted + Spoken(inc, piece)
  {
    hide Clean, Sync, QueuedOk, SnapshotAt, Payload, Messages, FirstMissing, Body, Recovering, MarketAt, Snapshot;
    SyncAtEnd(c);
    var e := FirstMissing(c.incrementals, a + 1);
    QueuedTail(inc, c, n, a, e);
    SnapshotIs(inc, a);
    PayloadOfSnapshot(MarketAt(inc, a), a);
    SliceReplay(inc, a, e - 1);
    hide Consecutive, Replay, Sound, Beyond;
    piece := Recovered(a, e - 1);
    assert Continues(|inc|, n, piece);
    JoinedLater(c.emitted, Body(MarketAt(inc, a), MAX_SYMBOLS), inc[a..e - 1]);
  }

  lemma JoinedLater(a: seq<Update>, b: seq<Update>, c: seq<Update>)
    ensures a + b + c == a + (b + c)
  {
  }

  lemma SnapshotIs(inc: seq<Update>, a: nat)
    requires a <= |inc|
    ensures SnapshotAt(inc, a) == Snapshot(MarketAt(inc, a), a)
  {
    hide Snapshot;
  }

  /** The pieces account for everything forwarded, up to number `n`. */
  ghost predicate Accounted(inc: seq<Update>, emitted: seq<Update>, pieces: seq<Piece>, n: int) {
    PiecesOk(|inc|, pieces) && EndOf(pieces) == n && emitted == SpokenAll(inc, pieces)
  }

  lemma PieceAccounted(inc: seq<Update>, emitted: seq<Update>, pieces: seq<Piece>, n: nat, piece: Piece)
    requires Accounted(inc, emitted, pieces, n) && Continues(|inc|, n, piece)
    ensures Accounted(inc, emitted + Spoken(inc, piece), pieces + [piece], EndOf([piece]))
  {
    hide Spoken;
    OneMorePiece(inc, pieces, piece);
  }

  /** An attempt in recovery forwards one piece or nothing. */
  lemma SyncAccounted(inc: seq<Update>, c: Consumer, from: seq<nat>, n: nat, pieces: seq<Piece>)
    returns (pieces': seq<Piece>)
    requires c.inRecovery && Clean(map[], inc) && QueuedOk(inc, c.incrementals) && Recovering(c.incrementals, n)
    requires Prefix(inc, c.snapshots, from) || !Consecutive(c.snapshots)
    requires Accounted(inc, c.emitted, pieces, n)
    ensures var c' := Sync(c);
            Accounted(inc, c'.emitted, pieces', if c'.inRecovery then n else c'.nextExp - 1)
  {
    hide Clean, QueuedOk, Prefix, Recovering, Accounted, Sync, Consecutive, Spoken;
    SyncKeepsQueued(c);
    pieces' := pieces;
    var piece := SyncSpeaks(inc, c, from, n);
    if !Sync(c).inRecovery {
      PieceAccounted(inc, c.emitted, pieces, n, piece);
      pieces' := pieces + [piece];
    }
  }

  lemma LiveAccounted(inc: seq<Update>, c: Consumer, k: nat, n: nat, pieces: seq<Piece>)
    returns (pieces': seq<Piece>)
    requires !c.inRecovery && c.nextExp == n + 1 && 1 <= k <= |inc| && Accounted(inc, c.emitted, pieces, n)
    ensures var c' := Receive(c, false, Packet(k, inc[k - 1]));
            Accounted(inc, c'.emitted, pieces', if c'.inRecovery then n else c'.nextExp - 1)
  {
    LiveReceive(c, Packet(k, inc[k - 1]));
    hide Receive, Accounted;
    pieces' := pieces;
    if k == n + 1 {
      PieceAccounted(inc, c.emitted, pieces, n, Live(k));
      pieces' := pieces + [Live(k)];
    }
  }

  lemma IncrementalAccounted(inc: seq<Update>, c: Consumer, k: nat, from: seq<nat>, n: nat, pieces: seq<Piece>)
    returns (pieces': seq<Piece>)
    requires Clean(map[], inc) && ConsumerOk(inc, c, from, n) && 1 <= k <= |inc| && Accounted(inc, c.emitted, pieces, n)
    ensures var c' := Receive(c, false, Packet(k, inc[k - 1]));
            Accounted(inc, c'.emitted, pieces', if c'.inRecovery then n else c'.nextExp - 1)
  {
    hide Clean, Forwarded, Sync, Enqueue, Recovering, Accounted, Prefix, QueuedOk, Consecutive;
    if c.inRecovery {
      EnqueuedIncrementals(inc, c, k, n);
      pieces' := SyncAccounted(inc, Enqueue(c, false, Packet(k, inc[k - 1])), from, n, pieces);
    } else {
      pieces' := LiveAccounted(inc, c, k, n, pieces);
    }
  }

  lemma SnapshotAccounted(inc: seq<Update>, c: Consumer, p: Packet, a: nat, from: seq<nat>, n: nat, pieces: seq<Piece>)
    returns (pieces': seq<Piece>)
    requires Clean(map[], inc) && ConsumerOk(inc, c, from, n) && PacketOk(inc, p, a)
    requires forall i :: 0 <= i < |from| ==> from[i] <= a
    requires Accounted(inc, c.emitted, pieces, n)
    ensures var c' := Receive(c, true, p);
            Accounted(inc, c'.emitted, pieces', if c'.inRecovery then n else c'.nextExp - 1)
  {
    hide Clean, Forwarded, Sync, Enqueue, Recovering, Accounted, Prefix, QueuedOk, PacketOk, Consecutive;
    pieces' := pieces;
    PacketNumber(inc, p, a);
    if c.inRecovery {
      PrefixLength(inc, c.snapshots, from);
      var queued := EnqueuedPrefix(inc, c.snapshots, from, p, a, c);
      EnqueuedSnapshot(c, p, n);
      pieces' := SyncAccounted(inc, Enqueue(c, true, p), queued, n, pieces);
    }
  }

  lemma PublishAccounted(inc: seq<Update>, u: Update, emitted: seq<Update>, pieces: seq<Piece>, n: int)
    requires Accounted(inc, emitted, pieces, n)
    ensures Accounted(inc + [u], emitted, pieces, n)
  {
    SpokenStays(inc, u, pieces);
  }

  /** One action. */
  lemma StepAccounted(s: System, a: Action, anchors: seq<nat>, from: seq<nat>, n: nat, pieces: seq<Piece>)
    returns (pieces': seq<Piece>)
    requires Enabled(s, a) && Inv(s, anchors, from, n) && Accounted(s.inc, s.consumer.emitted, pieces, n)
    ensures var s' := Do(s, a);
            var end := if s'.consumer.inRecovery then n else s'.consumer.nextExp - 1;
            Accounted(s'.inc, s'.consumer.emitted, pieces', end)
  {
    hide Clean, Forwarded, Receive, Recovering, Accounted, Prefix, QueuedOk, PacketOk, Snapshot, SentOk, Behind;
    pieces' := pieces;
    match a {
      case Publish(u) => PublishAccounted(s.inc, u, s.consumer.emitted, pieces, n);
      case Deliver(k) => pieces' := IncrementalAccounted(s.inc, s.consumer, k, from, n, pieces);
      case DeliverSnapshot(k) =>
        AnyPacket(s, anchors, from, k);
        pieces' := SnapshotAccounted(s.inc, s.consumer, s.sent[k], anchors[k], from, n, pieces);
      case _ =>
    }
  }

  /** Nothing is dropped, doubled, changed or reordered. In every reachable state what was forwarded is,
      piece after piece, the next incremental as it was published, or the orders of the market at some
      number with the incrementals after that number; each piece goes on beyond the one before, and the
      last ends where the consumer was last in step. */
  lemma {:induction false} ForwardedIsTold(actions: seq<Action>) returns (pieces: seq<Piece>)
    requires Possible(actions)
    ensures var s := Run(actions);
            && PiecesOk(|s.inc|, pieces) && s.consumer.emitted == SpokenAll(s.inc, pieces)
            && EndOf(pieces) == InStepWith(actions)
            && (!s.consumer.inRecovery ==> EndOf(pieces) == s.consumer.nextExp - 1)
    decreases |actions|
  {
    hide Inv, Enabled, Do, SpokenAll, PiecesOk;
    if actions == [] {
      pieces := [];
      NothingSpoken();
    } else {
      var before, a := actions[..|actions| - 1], actions[|actions| - 1];
      pieces := ForwardedIsTold(before);
      var anchors, from := Reachable(before);
      pieces := StepAccounted(Run(before), a, anchors, from, EndOf(pieces), pieces);
    }
  }

  lemma NothingSpoken()
    ensures PiecesOk(0, []) && SpokenAll([], []) == []
  {
  }
}
