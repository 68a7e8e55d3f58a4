/** The snapshot stream: complete pictures of the market, each anchored to the number of
    the last incremental update it includes. */
module Snapshots {
  import opened Types
  import opened Markets

  /** A numbered update, as both multicast streams carry it. */
  datatype Packet = Packet(seqNum: int, update: Update)

  function Start(anchor: nat): Update {
    Update(SNAPSHOT_START, 0, anchor, NoSide, 0, 0, 0)
  }

  function End(anchor: nat): Update {
    Update(SNAPSHOT_END, 0, anchor, NoSide, 0, 0, 0)
  }

  function Clear(symbol: nat): Update {
    Update(CLEAR, symbol, 0, NoSide, 0, 0, 0)
  }

  function AddOf(key: (nat, nat), e: Entry): Update {
    Update(ADD, key.0, key.1, e.side, e.price, e.quantity, e.priority)
  }

  /** The orders of a symbol with ids below `n`, in increasing id. */
  function OrdersOf(m: Market, symbol: nat, n: nat): seq<Update> {
    if n == 0 then []
    else OrdersOf(m, symbol, n - 1)
         + if (symbol, n - 1) in m then [AddOf((symbol, n - 1), m[(symbol, n - 1)])] else []
  }

  /** For each of the first `n` symbols: a CLEAR and then its orders. */
  function Body(m: Market, n: nat): seq<Update> {
    if n == 0 then [] else Body(m, n - 1) + [Clear(n - 1)] + OrdersOf(m, n - 1, MAX_ORDER_IDS)
  }

  function Snapshot(m: Market, anchor: nat): seq<Update> {
    [Start(anchor)] + Body(m, MAX_SYMBOLS) + [End(anchor)]
  }

  function Numbered(us: seq<Update>): seq<Packet> {
    seq(|us|, i requires 0 <= i < |us| => Packet(i, us[i]))
  }

  /** The updates a consumer forwards: everything but the snapshot markers. */
  function Payload(us: seq<Update>): seq<Update> {
    if us == [] then []
    else (if us[0].kind in {SNAPSHOT_START, SNAPSHOT_END} then [] else [us[0]]) + Payload(us[1..])
  }

  lemma {:induction false} PayloadConcat(a: seq<Update>, b: seq<Update>)
    ensures Payload(a + b) == Payload(a) + Payload(b)
  {
    if a == [] {
      assert a + b == b;
    } else {
      assert (a + b)[1..] == a[1..] + b;
      PayloadConcat(a[1..], b);
    }
  }

  predicate IsMarker(u: Update) {
    u.kind in {SNAPSHOT_START, SNAPSHOT_END}
  }

  lemma {:induction false} PayloadKeeps(us: seq<Update>)
    requires forall i :: 0 <= i < |us| ==> !IsMarker(us[i])
    ensures Payload(us) == us
  {
    if us == [] {
    } else {
      assert !IsMarker(us[0]);
      PayloadKeeps(us[1..]);
    }
  }

  lemma {:induction false} OrdersHaveNoMarkers(m: Market, symbol: nat, n: nat)
    ensures forall i :: 0 <= i < |OrdersOf(m, symbol, n)| ==> !IsMarker(OrdersOf(m, symbol, n)[i])
  {
    if n == 0 {
    } else {
      OrdersHaveNoMarkers(m, symbol, n - 1);
    }
  }

  lemma {:induction false} BodyHasNoMarkers(m: Market, n: nat)
    ensures forall i :: 0 <= i < |Body(m, n)| ==> !IsMarker(Body(m, n)[i])
  {
    hide OrdersOf;
    if n == 0 {
    } else {
      BodyHasNoMarkers(m, n - 1);
      OrdersHaveNoMarkers(m, n - 1, MAX_ORDER_IDS);
    }
  }

  /** Start is first, End is last, and nothing between them is a marker. */
  lemma MarkersOfSnapshot(m: Market, anchor: nat)
    ensures var s := Snapshot(m, anchor);
            && |s| >= 2 && s[0] == Start(anchor) && s[|s| - 1] == End(anchor)
            && forall i :: 0 < i < |s| - 1 ==> !IsMarker(s[i])
  {
    hide Body;
    BodyHasNoMarkers(m, MAX_SYMBOLS);
    var s := Snapshot(m, anchor);
    forall i | 0 < i < |s| - 1
      ensures !IsMarker(s[i])
    {
      assert s[i] == Body(m, MAX_SYMBOLS)[i - 1];
    }
  }

  lemma PayloadOfSnapshot(m: Market, anchor: nat)
    ensures Payload(Snapshot(m, anchor)) == Body(m, MAX_SYMBOLS)
  {
    hide Body;
    BodyHasNoMarkers(m, MAX_SYMBOLS);
    PayloadKeeps(Body(m, MAX_SYMBOLS));
    PayloadConcat([Start(anchor)] + Body(m, MAX_SYMBOLS), [End(anchor)]);
    PayloadConcat([Start(anchor)], Body(m, MAX_SYMBOLS));
    assert [Start(anchor)][1..] == [] && [End(anchor)][1..] == [];
  }

  // ----- what a snapshot contains -----

  /** A CLEAR of one of the first `n` symbols, or the ADD of one of their live orders. */
  ghost predicate Pictured(m: Market, n: nat, u: Update) {
    u.symbol < n &&
    if u.kind == CLEAR then u == Update(CLEAR, u.symbol, 0, NoSide, 0, 0, 0)
    else
      && (u.symbol, u.orderId) in m
      && var e := m[(u.symbol, u.orderId)];
         u == Update(ADD, u.symbol, u.orderId, e.side, e.price, e.quantity, e.priority)
  }

  /** By symbol, the CLEAR of a symbol before its orders, and those by id. */
  predicate Precedes(a: Update, b: Update) {
    a.symbol < b.symbol || (a.symbol == b.symbol && b.kind == ADD && (a.kind == CLEAR || a.orderId < b.orderId))
  }

  ghost predicate InOrder(us: seq<Update>) {
    forall i, j :: 0 <= i < j < |us| ==> Precedes(us[i], us[j])
  }

  lemma InOrderConcat(a: seq<Update>, b: seq<Update>)
    requires InOrder(a) && InOrder(b) && forall u, v :: u in a && v in b ==> Precedes(u, v)
    ensures InOrder(a + b)
  {
    hide Precedes;
    forall i, j | 0 <= i < j < |a + b|
      ensures Precedes((a + b)[i], (a + b)[j])
    {
      if i < |a| <= j {
        assert a[i] in a && b[j - |a|] in b;
      }
    }
  }

  lemma {:induction false} OrdersInOrder(m: Market, symbol: nat, n: nat)
    ensures InOrder(OrdersOf(m, symbol, n))
    ensures forall u :: u in OrdersOf(m, symbol, n) <==>
              u.orderId < n && (symbol, u.orderId) in m && u == AddOf((symbol, u.orderId), m[(symbol, u.orderId)])
  {
    if n == 0 {
    } else {
      OrdersInOrder(m, symbol, n - 1);
      var last := if (symbol, n - 1) in m then [AddOf((symbol, n - 1), m[(symbol, n - 1)])] else [];
      InOrderConcat(OrdersOf(m, symbol, n - 1), last);
    }
  }

  lemma {:induction false} BodyInOrder(m: Market, n: nat)
    requires Addressable(m)
    ensures InOrder(Body(m, n)) && forall u :: u in Body(m, n) <==> Pictured(m, n, u)
  {
    hide OrdersOf;
    if n == 0 {
    } else {
      BodyInOrder(m, n - 1);
      OrdersInOrder(m, n - 1, MAX_ORDER_IDS);
      hide InOrder, Body;
      BodyLast(m, n - 1);
      InOrderOne(Clear(n - 1));
      InOrderConcat(Body(m, n - 1), [Clear(n - 1)]);
      InOrderConcat(Body(m, n - 1) + [Clear(n - 1)], OrdersOf(m, n - 1, MAX_ORDER_IDS));
      forall u
        ensures u in Body(m, n) <==> Pictured(m, n, u)
      {
        assert Pictured(m, n, u) <==>
          Pictured(m, n - 1, u) || u == Clear(n - 1) || u in OrdersOf(m, n - 1, MAX_ORDER_IDS);
      }
    }
  }

  lemma BodyLast(m: Market, n: nat)
    ensures Body(m, n + 1) == Body(m, n) + [Clear(n)] + OrdersOf(m, n, MAX_ORDER_IDS)
  {
    hide OrdersOf;
  }

  lemma InOrderOne(u: Update)
    ensures InOrder([u])
  {
  }

  /** Between its two markers, which carry the anchor, a snapshot has for every symbol one CLEAR and then,
      by increasing id, each of its live orders once as it is, and nothing else. */
  lemma SnapshotContents(m: Market, anchor: nat)
    requires Addressable(m)
    ensures var s, n := Snapshot(m, anchor), |Snapshot(m, anchor)| - 1;
            && n >= 1 && s[0] == Update(SNAPSHOT_START, 0, anchor, NoSide, 0, 0, 0)
            && s[n] == Update(SNAPSHOT_END, 0, anchor, NoSide, 0, 0, 0)
            && InOrder(s[1..n]) && forall u :: u in s[1..n] <==> Pictured(m, MAX_SYMBOLS, u)
  {
    hide Body, InOrder, Pictured;
    BodyInOrder(m, MAX_SYMBOLS);
    var s := Snapshot(m, anchor);
    assert s[1..|s| - 1] == Body(m, MAX_SYMBOLS);
  }

  // ----- replaying a snapshot -----

  /** A market of the symbols and order ids that exist. */
  ghost predicate Addressable(m: Market) {
    forall key :: key in m ==> key.0 < MAX_SYMBOLS && key.1 < MAX_ORDER_IDS
  }

  /** `m0` with the first `n` symbols replaced by those of `m`, and of symbol `n` only the
      orders of `m` below `k`, when `k` is given. */
  ghost predicate Spliced(r: Market, m0: Market, m: Market, n: nat) {
    forall key: (nat, nat) ::
      && (key in r <==> if key.0 < n then key in m else key in m0)
      && (key in r ==> r[key] == if key.0 < n then m[key] else m0[key])
  }

  ghost predicate SplicedUpTo(r: Market, m0: Market, m: Market, n: nat, k: nat) {
    forall key: (nat, nat) ::
      && (key in r <==> if key.0 < n || (key.0 == n && key.1 < k) then key in m else key.0 != n && key in m0)
      && (key in r ==> r[key] == if key.0 <= n then m[key] else m0[key])
  }

  /** Any stream that a mirror can follow: clean, except that a symbol may be cleared. */
  ghost predicate Sound(m: Market, us: seq<Update>)
    decreases |us|
  {
    Uncrossed(m) &&
    (us != [] ==> (Fits(m, us[0]) || (us[0].kind == CLEAR && us[0].symbol < MAX_SYMBOLS))
                  && Sound(Apply(m, us[0]), us[1..]))
  }

  lemma {:induction false} CleanIsSound(m: Market, us: seq<Update>)
    requires Clean(m, us)
    ensures Sound(m, us)
    decreases |us|
  {
    if us == [] {
    } else {
      CleanIsSound(Apply(m, us[0]), us[1..]);
    }
  }

  lemma {:induction false} SoundConcat(m: Market, a: seq<Update>, b: seq<Update>)
    requires Sound(m, a) && Sound(Replay(m, a), b)
    ensures Sound(m, a + b)
    decreases |a|
  {
    if a == [] {
      assert a + b == b;
    } else {
      assert (a + b)[1..] == a[1..] + b;
      SoundConcat(Apply(m, a[0]), a[1..], b);
    }
  }

  lemma SoundOne(m: Market, u: Update)
    requires Uncrossed(m) && Uncrossed(Apply(m, u))
    requires Fits(m, u) || (u.kind == CLEAR && u.symbol < MAX_SYMBOLS)
    ensures Sound(m, [u]) && Replay(m, [u]) == Apply(m, u)
  {
    assert [u][1..] == [];
    assert Sound(Apply(m, u), []);
  }

  /** A market whose entries are those a clean stream can have produced. */
  ghost predicate Regular(m: Market) {
    && Addressable(m) && Uncrossed(m)
    && forall key :: key in m ==> EntryOk(key, m[key])
  }

  predicate EntryOk(key: (nat, nat), e: Entry) {
    && 1 <= key.1 && e.side != NoSide && 0 <= e.price < MAX_PRICE_LEVELS
    && 0 < e.quantity < QUANTITY_MODULUS
  }

  lemma ApplyRegular(m: Market, u: Update)
    requires Regular(m) && Fits(m, u) && Uncrossed(Apply(m, u))
    ensures Regular(Apply(m, u))
  {
    var m' := Apply(m, u);
    forall key | key in m'
      ensures EntryOk(key, m'[key]) && key.0 < MAX_SYMBOLS && key.1 < MAX_ORDER_IDS
    {
      if key in m {
        assert EntryOk(key, m[key]);
      }
    }
  }

  lemma {:induction false} CleanRegular(m: Market, us: seq<Update>)
    requires Regular(m) && Clean(m, us)
    ensures Regular(Replay(m, us))
    decreases |us|
  {
    if us == [] {
    } else {
      ApplyRegular(m, us[0]);
      CleanRegular(Apply(m, us[0]), us[1..]);
    }
  }

  /** Mixing whole symbols of two uncrossed markets gives an uncrossed market. */
  lemma SplicedUncrossed(r: Market, m0: Market, m: Market, n: nat, k: nat)
    requires SplicedUpTo(r, m0, m, n, k) && Uncrossed(m0) && Uncrossed(m)
    ensures Uncrossed(r)
  {
    forall bid, ask | bid in r && ask in r && bid.0 == ask.0 && r[bid].side == BUY && r[ask].side == SELL
      ensures r[bid].price < r[ask].price
    {
      if bid.0 <= n {
        assert bid in m && ask in m && r[bid] == m[bid] && r[ask] == m[ask];
      } else {
        assert bid in m0 && ask in m0 && r[bid] == m0[bid] && r[ask] == m0[ask];
      }
    }
  }

  lemma SoundNothing(m: Market)
    ensures Uncrossed(m) ==> Sound(m, [])
    ensures Replay(m, []) == m
  {
  }

  lemma {:induction false} OrdersReplay(r: Market, m0: Market, m: Market, n: nat, k: nat)
    requires n < MAX_SYMBOLS && k <= MAX_ORDER_IDS
    requires SplicedUpTo(r, m0, m, n, 0) && Uncrossed(m0) && Regular(m)
    ensures Sound(r, OrdersOf(m, n, k)) && SplicedUpTo(Replay(r, OrdersOf(m, n, k)), m0, m, n, k)
  {
    hide SplicedUpTo, Sound, Fits, Uncrossed, Replay;
    SplicedUncrossed(r, m0, m, n, 0);
    if k == 0 {
      SoundNothing(r);
    } else {
      OrdersReplay(r, m0, m, n, k - 1);
      var r1, key := Replay(r, OrdersOf(m, n, k - 1)), (n, k - 1);
      SplicedUncrossed(r1, m0, m, n, k - 1);
      if key in m {
        var u := AddOf(key, m[key]);
        AddSplices(r1, m0, m, n, k - 1);
        SoundOne(r1, u);
        SoundConcat(r, OrdersOf(m, n, k - 1), [u]);
        ReplayConcat(r, OrdersOf(m, n, k - 1), [u]);
      } else {
        assert OrdersOf(m, n, k) == OrdersOf(m, n, k - 1);
        NoneToAdd(r1, m0, m, n, k - 1);
      }
    }
  }

  lemma NoneToAdd(r: Market, m0: Market, m: Market, n: nat, k: nat)
    requires SplicedUpTo(r, m0, m, n, k) && (n, k) !in m
    ensures SplicedUpTo(r, m0, m, n, k + 1)
  {
  }

  lemma OneMoreSpliced(r: Market, m0: Market, m: Market, n: nat, k: nat)
    requires (n, k) in m && SplicedUpTo(r, m0, m, n, k)
    ensures SplicedUpTo(Apply(r, AddOf((n, k), m[(n, k)])), m0, m, n, k + 1)
  {
  }

  lemma AddSplices(r: Market, m0: Market, m: Market, n: nat, k: nat)
    requires n < MAX_SYMBOLS && k < MAX_ORDER_IDS && (n, k) in m
    requires SplicedUpTo(r, m0, m, n, k) && Uncrossed(m0) && Regular(m)
    ensures var u := AddOf((n, k), m[(n, k)]);
            Fits(r, u) && SplicedUpTo(Apply(r, u), m0, m, n, k + 1) && Uncrossed(Apply(r, u))
  {
    hide Uncrossed, Addressable;
    assert EntryOk((n, k), m[(n, k)]);
    OneMoreSpliced(r, m0, m, n, k);
    var u := AddOf((n, k), m[(n, k)]);
    assert Fits(r, u);
    hide Fits, Apply, SplicedUpTo;
    SplicedUncrossed(Apply(r, u), m0, m, n, k + 1);
  }

  lemma {:induction false} BodyReplay(m0: Market, m: Market, n: nat)
    requires n <= MAX_SYMBOLS && Uncrossed(m0) && Regular(m)
    ensures Sound(m0, Body(m, n)) && Spliced(Replay(m0, Body(m, n)), m0, m, n)
  {
    hide Spliced, SplicedUpTo, Sound, Fits, Uncrossed, Regular, Replay, Apply, OrdersOf;
    if n == 0 {
      SoundNothing(m0);
      NothingSpliced(m0, m);
    } else {
      BodyReplay(m0, m, n - 1);
      var before, orders := Body(m, n - 1), OrdersOf(m, n - 1, MAX_ORDER_IDS);
      var r := Replay(m0, before);
      SoundEnd(m0, before);
      ClearSplices(r, m0, m, n - 1);
      SoundConcat(m0, before, [Clear(n - 1)]);
      ReplayConcat(m0, before, [Clear(n - 1)]);
      OrdersReplay(Apply(r, Clear(n - 1)), m0, m, n - 1, MAX_ORDER_IDS);
      SoundConcat(m0, before + [Clear(n - 1)], orders);
      ReplayConcat(m0, before + [Clear(n - 1)], orders);
      AllOrders(Replay(m0, Body(m, n)), m0, m, n);
    }
  }

  lemma NothingSpliced(m0: Market, m: Market)
    ensures Spliced(m0, m0, m, 0)
  {
  }

  lemma ClearSplices(r: Market, m0: Market, m: Market, n: nat)
    requires n < MAX_SYMBOLS && Spliced(r, m0, m, n) && Uncrossed(m0) && Uncrossed(r) && Regular(m)
    ensures SplicedUpTo(Apply(r, Clear(n)), m0, m, n, 0)
    ensures Sound(r, [Clear(n)]) && Replay(r, [Clear(n)]) == Apply(r, Clear(n))
  {
    assert SplicedUpTo(Apply(r, Clear(n)), m0, m, n, 0);
    SplicedUncrossed(Apply(r, Clear(n)), m0, m, n, 0);
    SoundOne(r, Clear(n));
  }

  lemma {:induction false} SoundEnd(m: Market, us: seq<Update>)
    requires Sound(m, us)
    ensures Uncrossed(Replay(m, us))
    decreases |us|
  {
    if us == [] {
    } else {
      SoundEnd(Apply(m, us[0]), us[1..]);
    }
  }

  lemma AllOrders(r: Market, m0: Market, m: Market, n: nat)
    requires n > 0 && SplicedUpTo(r, m0, m, n - 1, MAX_ORDER_IDS) && Regular(m)
    ensures Spliced(r, m0, m, n)
  {
  }

  /** Whatever a consumer knew before, a replayed snapshot leaves it with the market the
      snapshot was taken of, through uncrossed markets only. */
  lemma SnapshotReplay(m0: Market, m: Market, anchor: nat)
    requires Addressable(m0) && Uncrossed(m0) && Regular(m)
    ensures Sound(m0, Payload(Snapshot(m, anchor)))
    ensures Replay(m0, Payload(Snapshot(m, anchor))) == m
  {
    hide Body, Sound;
    PayloadOfSnapshot(m, anchor);
    BodyReplay(m0, m, MAX_SYMBOLS);
    var r := Replay(m0, Body(m, MAX_SYMBOLS));
    assert r.Keys == m.Keys;
    assert forall key :: key in m ==> r[key] == m[key];
  }
}
