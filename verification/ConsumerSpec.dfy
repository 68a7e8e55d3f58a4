/** What the market data consumer does with one packet, as a function of its state. */
module ConsumerSpecs {
  import opened Types
  import opened Markets
  import opened Snapshots

  type Queue = map<int, Update>

  datatype Consumer = Consumer(
    nextExp: int, inRecovery: bool, snapshots: Queue, incrementals: Queue, emitted: seq<Update>)

  const INITIAL := Consumer(1, false, map[], map[], [])

  /** The keys are 0, 1, ... without a gap. */
  ghost predicate Consecutive(q: Queue) {
    forall k :: k in q <==> 0 <= k < |q|
  }

  /** The messages under keys `from` to `end` - 1. */
  function Messages(q: Queue, from: int, end: int): (us: seq<Update>)
    requires from <= end && forall k :: from <= k < end ==> k in q
    ensures |us| == end - from
    ensures forall i :: 0 <= i < |us| ==> us[i] == q[from + i]
    decreases end - from
  {
    if from == end then [] else [q[from]] + Messages(q, from + 1, end)
  }

  /** The first number from `n` on that is missing in the queue. */
  function FirstMissing(q: Queue, n: int): (e: int)
    ensures n <= e && e !in q && forall k :: n <= k < e ==> k in q
    decreases |q|
  {
    if n in q then
      var rest := q - {n};
      assert q.Keys == rest.Keys + {n};
      FirstMissing(rest, n + 1)
    else n
  }

  lemma FirstMissingIs(q: Queue, n: int, e: int)
    requires n <= e && e !in q && forall k :: n <= k < e ==> k in q
    ensures FirstMissing(q, n) == e
  {
  }

  /** Tries to complete a recovery from what is queued. */
  ghost function Sync(c: Consumer): Consumer {
    var q := c.snapshots;
    if q == map[] then c
    else if !Consecutive(q) || q[0].kind != SNAPSHOT_START then c.(snapshots := map[])
    else
      var last := q[|q| - 1];
      if last.kind != SNAPSHOT_END then c
      else if q[0].orderId != last.orderId then c.(snapshots := map[])
      else
        var from := last.orderId + 1;
        var e := FirstMissing(c.incrementals, from);
        if exists k :: k in c.incrementals && k >= e then c.(snapshots := map[], nextExp := e)
        else Consumer(e, false, map[], map[],
                      c.emitted + Payload(Messages(q, 0, |q|)) + Payload(Messages(c.incrementals, from, e)))
  }

  function Enqueue(c: Consumer, isSnapshot: bool, p: Packet): Consumer {
    if isSnapshot then
      var q := if p.seqNum == 0 || p.seqNum in c.snapshots then map[] else c.snapshots;
      c.(snapshots := q[p.seqNum := p.update])
    else c.(incrementals := c.incrementals[p.seqNum := p.update])
  }

  /** One packet, from the snapshot or from the incremental stream. */
  ghost function Receive(c: Consumer, isSnapshot: bool, p: Packet): Consumer {
    if p.seqNum < 0 || (isSnapshot && !c.inRecovery) then c
    else if !c.inRecovery && p.seqNum < c.nextExp then c
    else if c.inRecovery then Sync(Enqueue(c, isSnapshot, p))
    else if p.seqNum != c.nextExp
    then Sync(Enqueue(c.(inRecovery := true, snapshots := map[], incrementals := map[]), isSnapshot, p))
    else c.(nextExp := c.nextExp + 1, emitted := c.emitted + [p.update])
  }

  ghost function ReceiveAll(c: Consumer, isSnapshot: bool, ps: seq<Packet>): Consumer {
    if ps == [] then c
    else Receive(ReceiveAll(c, isSnapshot, ps[..|ps| - 1]), isSnapshot, ps[|ps| - 1])
  }

  // ----- outside recovery -----

  /** What an incremental does outside recovery: the next one is forwarded and counted, one from beyond
      starts a recovery with nothing but itself, and any other changes nothing. */
  ghost predicate LiveLaw(c: Consumer, p: Packet, c': Consumer) {
    && (p.seqNum == c.nextExp ==>
          c' == Consumer(c.nextExp + 1, false, c.snapshots, c.incrementals, c.emitted + [p.update]))
    && (p.seqNum > c.nextExp ==> c' == Consumer(c.nextExp, true, map[], map[p.seqNum := p.update], c.emitted))
    && (p.seqNum < c.nextExp ==> c' == c)
  }

  /** Outside recovery an incremental obeys the law and a snapshot packet is ignored. */
  lemma LiveReceive(c: Consumer, p: Packet)
    requires !c.inRecovery && c.nextExp >= 0
    ensures LiveLaw(c, p, Receive(c, false, p)) && Receive(c, true, p) == c
  {
    hide FirstMissing, Messages, Payload, Consecutive;
  }

  /** The updates of a buffer that continue a stream at number `n`, each when it is its turn. */
  function InSequence(n: int, ps: seq<Packet>): seq<Update> {
    if ps == [] then []
    else
      var before, p := InSequence(n, ps[..|ps| - 1]), ps[|ps| - 1];
      if p.seqNum == n + |before| then before + [p.update] else before
  }

  /** No packet is from beyond the next number: some may come again, none is missing. */
  predicate NoJump(n: int, ps: seq<Packet>) {
    ps == [] ||
    (NoJump(n, ps[..|ps| - 1]) && ps[|ps| - 1].seqNum <= n + |InSequence(n, ps[..|ps| - 1])|)
  }

  /** A buffer without a jump is forwarded without its repetitions. */
  lemma {:induction false} BufferForwarded(c: Consumer, ps: seq<Packet>)
    requires !c.inRecovery && c.nextExp >= 0 && NoJump(c.nextExp, ps)
    ensures var news := InSequence(c.nextExp, ps);
            ReceiveAll(c, false, ps) == c.(nextExp := c.nextExp + |news|, emitted := c.emitted + news)
  {
    hide Receive;
    if ps == [] {
      assert c.emitted + [] == c.emitted;
    } else {
      var before, p := ps[..|ps| - 1], ps[|ps| - 1];
      BufferForwarded(c, before);
      LiveReceive(ReceiveAll(c, false, before), p);
    }
  }
}
