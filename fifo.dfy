/** The FIFO queue of open lots shared by every ledger in the scripts.

    All of them close a sell against `open_positions[0]` first: a head lot
    no larger than what is still to be sold is consumed whole and popped,
    a larger one is shrunk in place and keeps its price and time.
    `Consume` states that step once, on values; each ledger module proves
    its own loop equal to it. */
module Fifo {
  import opened Common

  /** One open lot: the unconsumed part of one buy fill. `I` is whatever
      the ledger remembers about the fill besides quantity, price and
      time (an order id, or nothing). */
  datatype Lot<I> = Lot(qty: real, price: real, time: int, id: I)

  /** What a sell takes from the queue, and what it leaves. */
  datatype Split<I> = Split(taken: seq<Lot<I>>, rest: seq<Lot<I>>)

  function SumQty<I>(lots: seq<Lot<I>>): real {
    if lots == [] then 0.0 else lots[0].qty + SumQty(lots[1..])
  }

  /** `sum(qty * price)`: the numerator of a weighted average. */
  function Cost<I>(lots: seq<Lot<I>>): real {
    if lots == [] then 0.0 else lots[0].qty * lots[0].price + Cost(lots[1..])
  }

  predicate AllPositive<I>(lots: seq<Lot<I>>) {
    forall k :: 0 <= k < |lots| ==> lots[k].qty > 0.0
  }

  predicate IsWhole(x: real) {
    x == x.Floor as real
  }

  predicate AllWhole<I>(lots: seq<Lot<I>>) {
    forall k :: 0 <= k < |lots| ==> IsWhole(lots[k].qty)
  }

  /** Take up to `want` from the front of `lots`, oldest first. */
  function Consume<I>(lots: seq<Lot<I>>, want: real): (r: Split<I>)
    ensures |r.taken| <= |lots|
    decreases |lots|
  {
    if want <= 0.0 || lots == [] then Split([], lots)
    else if lots[0].qty <= want then
      var r := Consume(lots[1..], want - lots[0].qty);
      Split([lots[0]] + r.taken, r.rest)
    else
      Split([lots[0].(qty := want)], [lots[0].(qty := lots[0].qty - want)] + lots[1..])
  }

  /** The quantity in the queue is conserved: what a sell takes plus what
      it leaves is what was there. */
  lemma {:induction false} ConsumeConserves<I>(lots: seq<Lot<I>>, want: real)
    ensures SumQty(lots) == SumQty(Consume(lots, want).taken) + SumQty(Consume(lots, want).rest)
    decreases |lots|
  {
    if want > 0.0 && lots != [] {
      if lots[0].qty <= want {
        var r := Consume(lots[1..], want - lots[0].qty);
        ConsumeConserves(lots[1..], want - lots[0].qty);
        assert ([lots[0]] + r.taken)[1..] == r.taken;
      } else {
        var rest := [lots[0].(qty := lots[0].qty - want)] + lots[1..];
        assert rest[1..] == lots[1..];
        assert [lots[0].(qty := want)][1..] == [];
      }
    }
  }

  lemma {:induction false} SumQtyAppend<I>(a: seq<Lot<I>>, b: seq<Lot<I>>)
    ensures SumQty(a + b) == SumQty(a) + SumQty(b)
    decreases |a|
  {
    if a != [] {
      assert (a + b)[1..] == a[1..] + b;
      SumQtyAppend(a[1..], b);
    } else {
      assert a + b == b;
    }
  }

  lemma {:induction false} CostAppend<I>(a: seq<Lot<I>>, b: seq<Lot<I>>)
    ensures Cost(a + b) == Cost(a) + Cost(b)
    decreases |a|
  {
    if a != [] {
      assert (a + b)[1..] == a[1..] + b;
      CostAppend(a[1..], b);
    } else {
      assert a + b == b;
    }
  }

  lemma {:induction false} Single<I>(x: Lot<I>)
    ensures SumQty([x]) == x.qty && Cost([x]) == x.qty * x.price
  {
    assert [x][1..] == [];
  }

  /** Appending a slice of `q` taken from `lot` to a run of slices. */
  lemma {:induction false} AppendSlice<I>(lots: seq<Lot<I>>, lot: Lot<I>, q: real)
    ensures SumQty(lots + [lot.(qty := q)]) == SumQty(lots) + q
    ensures Cost(lots + [lot.(qty := q)]) == Cost(lots) + q * lot.price
  {
    var x := lot.(qty := q);
    SumQtyAppend(lots, [x]);
    CostAppend(lots, [x]);
    Single(x);
  }

  lemma {:induction false} SumQtyPositive<I>(lots: seq<Lot<I>>)
    requires AllPositive(lots)
    ensures SumQty(lots) >= 0.0
    ensures lots != [] ==> SumQty(lots) > 0.0
    decreases |lots|
  {
    if lots != [] {
      SumQtyPositive(lots[1..]);
    }
  }

  /** Every taken lot was consumed whole: the taken slices are the front
      lots and the rest is the untouched tail. */
  ghost predicate TakenWhole<I>(lots: seq<Lot<I>>, r: Split<I>) {
    var n := |r.taken|;
    n <= |lots| && r.taken == lots[..n] && r.rest == lots[n..]
  }

  /** The last taken lot was consumed only in part: the slices before it
      are whole front lots, it keeps its price, time and id, and its
      positive remainder stays at the head of the queue. */
  ghost predicate TakenPartly<I>(lots: seq<Lot<I>>, r: Split<I>) {
    var n := |r.taken|;
    && 0 < n <= |lots|
    && r.taken[..n - 1] == lots[..n - 1]
    && r.taken[n - 1] == lots[n - 1].(qty := r.taken[n - 1].qty)
    && 0.0 < r.taken[n - 1].qty < lots[n - 1].qty
    && r.rest == [lots[n - 1].(qty := lots[n - 1].qty - r.taken[n - 1].qty)] + lots[n..]
  }

  lemma {:induction false} ShiftWhole<I>(head: Lot<I>, tail: seq<Lot<I>>, r: Split<I>)
    requires TakenWhole(tail, r)
    ensures TakenWhole([head] + tail, Split([head] + r.taken, r.rest))
  {
    var n := |r.taken|;
    assert ([head] + tail)[..n + 1] == [head] + tail[..n];
    assert ([head] + tail)[n + 1..] == tail[n..];
  }

  lemma {:induction false} ShiftPartly<I>(head: Lot<I>, tail: seq<Lot<I>>, r: Split<I>)
    requires TakenPartly(tail, r)
    ensures TakenPartly([head] + tail, Split([head] + r.taken, r.rest))
  {
    var n := |r.taken|;
    var lots := [head] + tail;
    var taken := [head] + r.taken;
    assert lots[..n] == [head] + tail[..n - 1];
    assert taken[..n] == [head] + r.taken[..n - 1];
    assert lots[n] == tail[n - 1] && taken[n] == r.taken[n - 1];
    assert lots[n + 1..] == tail[n..];
  }

  /** FIFO shape of a sell: either every taken lot was consumed whole, or
      only the last one was consumed in part and its remainder stays at
      the head. */
  lemma {:induction false} ConsumeFromFront<I>(lots: seq<Lot<I>>, want: real)
    ensures TakenWhole(lots, Consume(lots, want)) || TakenPartly(lots, Consume(lots, want))
    decreases |lots|
  {
    if want <= 0.0 || lots == [] {
    } else if lots[0].qty <= want {
      var r' := Consume(lots[1..], want - lots[0].qty);
      ConsumeFromFront(lots[1..], want - lots[0].qty);
      assert lots == [lots[0]] + lots[1..];
      if TakenWhole(lots[1..], r') {
        ShiftWhole(lots[0], lots[1..], r');
      } else {
        ShiftPartly(lots[0], lots[1..], r');
      }
    } else {
      var r := Consume(lots, want);
      assert r.taken[..0] == lots[..0];
      assert lots[1..] == lots[|r.taken|..];
      assert TakenPartly(lots, r);
    }
  }

  /** Where a lot came from: the price, time and id of its buy. */
  datatype Origin<I> = Origin(price: real, time: int, id: I)

  function OriginOf<I>(l: Lot<I>): Origin<I> {
    Origin(l.price, l.time, l.id)
  }

  /** Two lots that differ at most in quantity. */
  ghost predicate SameOrigin<I>(a: Lot<I>, b: Lot<I>) {
    a.price == b.price && a.time == b.time && a.id == b.id
  }

  /** Slice `k` of `taken` comes from lot `k` of `lots`. */
  ghost predicate FrontOf<I>(taken: seq<Lot<I>>, lots: seq<Lot<I>>) {
    |taken| <= |lots| && forall k :: 0 <= k < |taken| ==> SameOrigin(taken[k], lots[k])
  }

  /** `rest` is the tail of `lots`, lot for lot, quantities aside. */
  ghost predicate TailOf<I>(rest: seq<Lot<I>>, lots: seq<Lot<I>>) {
    |rest| <= |lots| && forall k :: 0 <= k < |rest| ==> SameOrigin(rest[k], lots[|lots| - |rest| + k])
  }

  /** A sell never adds lots, and every lot it takes or leaves is one of
      the lots it found (same price, time and id), in queue order: slice
      `k` comes from lot `k`, and what is left is the tail of the queue. */
  lemma {:induction false} ConsumeOrigins<I>(lots: seq<Lot<I>>, want: real)
    ensures FrontOf(Consume(lots, want).taken, lots) && TailOf(Consume(lots, want).rest, lots)
  {
    ConsumeFromFront(lots, want);
    ShapeOrigins(lots, Consume(lots, want));
  }

  lemma {:induction false} ShapeOrigins<I>(lots: seq<Lot<I>>, r: Split<I>)
    requires TakenWhole(lots, r) || TakenPartly(lots, r)
    ensures FrontOf(r.taken, lots) && TailOf(r.rest, lots)
  {
    var n := |r.taken|;
    if TakenWhole(lots, r) {
      forall k | 0 <= k < n
        ensures r.taken[k] == lots[k]
      {
        assert r.taken[k] == lots[..n][k];
      }
      forall k | 0 <= k < |r.rest|
        ensures r.rest[k] == lots[|lots| - |r.rest| + k]
      {
        assert r.rest[k] == lots[n..][k];
      }
    } else {
      forall k | 0 <= k < n - 1
        ensures r.taken[k] == lots[k]
      {
        assert r.taken[k] == r.taken[..n - 1][k] == lots[..n - 1][k];
      }
      forall k | 1 <= k < |r.rest|
        ensures r.rest[k] == lots[|lots| - |r.rest| + k]
      {
        assert r.rest[k] == lots[n..][k - 1];
      }
    }
  }

  /** The slices a sell takes: every one but the last is its whole lot,
      and the last is at most its lot. */
  lemma {:induction false} ConsumeSlices<I>(lots: seq<Lot<I>>, want: real)
    ensures var t := Consume(lots, want).taken;
      forall k :: 0 <= k < |t| ==> t[k].qty <= lots[k].qty && (k < |t| - 1 ==> t[k].qty == lots[k].qty)
  {
    ConsumeFromFront(lots, want);
    ShapeSlices(lots, Consume(lots, want));
  }

  lemma {:induction false} ShapeSlices<I>(lots: seq<Lot<I>>, r: Split<I>)
    requires TakenWhole(lots, r) || TakenPartly(lots, r)
    ensures forall k :: 0 <= k < |r.taken| ==>
      r.taken[k].qty <= lots[k].qty && (k < |r.taken| - 1 ==> r.taken[k].qty == lots[k].qty)
  {
    var n := |r.taken|;
    forall k | 0 <= k < n
      ensures r.taken[k].qty <= lots[k].qty && (k < n - 1 ==> r.taken[k].qty == lots[k].qty)
    {
      if TakenWhole(lots, r) {
        assert r.taken[k] == lots[..n][k];
      } else if k < n - 1 {
        assert r.taken[k] == r.taken[..n - 1][k] == lots[..n - 1][k];
      }
    }
  }

  /** How much a sell takes: with positive lots and a positive sell, the
      taken quantity is `min(want, open quantity)`, nothing is taken only
      from an empty queue, the queue is emptied whenever the sell is not
      filled, and every lot that is taken or left stays positive. */
  lemma {:induction false} ConsumeAmount<I>(lots: seq<Lot<I>>, want: real)
    requires AllPositive(lots) && want > 0.0
    ensures var r := Consume(lots, want);
      && SumQty(r.taken) == Min(want, SumQty(lots))
      && (SumQty(r.taken) > 0.0 <==> lots != [])
      && (SumQty(r.taken) < want ==> r.rest == [])
      && AllPositive(r.taken) && AllPositive(r.rest)
    decreases |lots|
  {
    ConsumePositive(lots, want);
    SumQtyPositive(lots);
    if lots != [] && lots[0].qty <= want {
      var w := want - lots[0].qty;
      var r' := Consume(lots[1..], w);
      assert Consume(lots, want).taken == [lots[0]] + r'.taken;
      assert SumQty([lots[0]] + r'.taken) == lots[0].qty + SumQty(r'.taken);
      if w > 0.0 {
        ConsumeAmount(lots[1..], w);
      } else {
        SumQtyPositive(lots[1..]);
      }
    } else if lots != [] {
      SumQtyPositive(lots[1..]);
    }
  }

  /** Positive lots stay positive: every slice a sell takes and every lot
      it leaves has a positive quantity. */
  lemma {:induction false} ConsumePositive<I>(lots: seq<Lot<I>>, want: real)
    requires AllPositive(lots)
    ensures AllPositive(Consume(lots, want).taken) && AllPositive(Consume(lots, want).rest)
  {
    ConsumeFromFront(lots, want);
    ShapePositive(lots, Consume(lots, want));
  }

  lemma {:induction false} ShapePositive<I>(lots: seq<Lot<I>>, r: Split<I>)
    requires AllPositive(lots) && (TakenWhole(lots, r) || TakenPartly(lots, r))
    ensures AllPositive(r.taken) && AllPositive(r.rest)
  {
    var n := |r.taken|;
    forall k | 0 <= k < n
      ensures r.taken[k].qty > 0.0
    {
      if TakenWhole(lots, r) {
        assert r.taken[k] == lots[..n][k];
      } else if k < n - 1 {
        assert r.taken[k] == r.taken[..n - 1][k] == lots[..n - 1][k];
      }
    }
    forall k | 0 <= k < |r.rest|
      ensures r.rest[k].qty > 0.0
    {
      if TakenWhole(lots, r) {
        assert r.rest[k] == lots[n..][k];
      } else if k > 0 {
        assert r.rest[k] == lots[n..][k - 1];
      }
    }
  }

  /** Whatever the lots hold, a positive sell never takes more than it asks for. */
  lemma {:induction false} ConsumeWithinWant<I>(lots: seq<Lot<I>>, want: real)
    requires want > 0.0
    ensures SumQty(Consume(lots, want).taken) <= want
    decreases |lots|
  {
    if lots != [] && lots[0].qty <= want && want - lots[0].qty > 0.0 {
      ConsumeWithinWant(lots[1..], want - lots[0].qty);
    }
  }

  /** With whole-number lots and a whole-number sell, every slice and every
      remaining lot is a whole number too. */
  lemma {:induction false} ConsumeWhole<I>(lots: seq<Lot<I>>, want: real)
    requires AllWhole(lots) && IsWhole(want)
    ensures AllWhole(Consume(lots, want).taken) && AllWhole(Consume(lots, want).rest)
    decreases |lots|
  {
    if want <= 0.0 || lots == [] {
    } else if lots[0].qty <= want {
      var w := want - lots[0].qty;
      assert w.Floor == want.Floor - lots[0].qty.Floor;
      ConsumeWhole(lots[1..], w);
      var r' := Consume(lots[1..], w);
      assert forall k :: 1 <= k < |r'.taken| + 1 ==> ([lots[0]] + r'.taken)[k] == r'.taken[k - 1];
    } else {
      var d := lots[0].qty - want;
      assert d.Floor == lots[0].qty.Floor - want.Floor;
      var rest := [lots[0].(qty := d)] + lots[1..];
      assert forall k :: 1 <= k < |rest| ==> rest[k] == lots[k];
    }
  }

  lemma {:induction false} CostBounds<I>(lots: seq<Lot<I>>, lo: real, hi: real)
    requires AllPositive(lots)
    requires forall k :: 0 <= k < |lots| ==> lo <= lots[k].price <= hi
    ensures lo * SumQty(lots) <= Cost(lots) <= hi * SumQty(lots)
    decreases |lots|
  {
    if lots != [] {
      var rest := lots[1..];
      assert forall k :: 0 <= k < |rest| ==> rest[k] == lots[k + 1];
      CostBounds(rest, lo, hi);
      BoundsStep(lots[0].qty, lots[0].price, lo, hi, SumQty(lots), Cost(lots), SumQty(rest), Cost(rest));
    }
  }

  /** The arithmetic of one step of `CostBounds`, on plain numbers. */
  lemma BoundsStep(q: real, p: real, lo: real, hi: real, s: real, c: real, s': real, c': real)
    requires q > 0.0 && lo <= p <= hi
    requires s == q + s' && c == q * p + c'
    requires lo * s' <= c' <= hi * s'
    ensures lo * s <= c <= hi * s
  {
    assert q * (p - lo) >= 0.0 && q * (hi - p) >= 0.0;
    assert lo * s == lo * q + lo * s';
    assert hi * s == hi * q + hi * s';
  }

  function MinPrice<I>(lots: seq<Lot<I>>): real
    requires lots != []
  {
    if |lots| == 1 then lots[0].price
    else var m := MinPrice(lots[1..]); if lots[0].price <= m then lots[0].price else m
  }

  function MaxPrice<I>(lots: seq<Lot<I>>): real
    requires lots != []
  {
    if |lots| == 1 then lots[0].price
    else var m := MaxPrice(lots[1..]); if lots[0].price >= m then lots[0].price else m
  }

  lemma {:induction false} PriceRange<I>(lots: seq<Lot<I>>)
    requires lots != []
    ensures forall k :: 0 <= k < |lots| ==> MinPrice(lots) <= lots[k].price <= MaxPrice(lots)
    decreases |lots|
  {
    if |lots| > 1 {
      PriceRange(lots[1..]);
      assert forall k :: 1 <= k < |lots| ==> lots[k] == lots[1..][k - 1];
    }
  }

  lemma {:induction false} DivWithin(c: real, s: real, lo: real, hi: real)
    requires s > 0.0 && lo * s <= c <= hi * s
    ensures lo <= c / s <= hi
  {
    var q := c / s;
    assert q * s == c;
    assert (q - lo) * s >= 0.0;
    assert (hi - q) * s >= 0.0;
  }

  /** The weighted-average price `Cost / SumQty` of positive lots lies
      between their cheapest and their dearest price. */
  lemma {:induction false} AverageBetween<I>(lots: seq<Lot<I>>)
    requires lots != [] && AllPositive(lots)
    ensures SumQty(lots) > 0.0
    ensures MinPrice(lots) <= Cost(lots) / SumQty(lots) <= MaxPrice(lots)
  {
    var c, s, lo, hi := Cost(lots), SumQty(lots), MinPrice(lots), MaxPrice(lots);
    assert s > 0.0 && lo * s <= c <= hi * s by {
      SumQtyPositive(lots);
      WeightedBounds(lots);
    }
    DivWithin(c, s, lo, hi);
  }

  lemma {:induction false} WeightedBounds<I>(lots: seq<Lot<I>>)
    requires lots != [] && AllPositive(lots)
    ensures MinPrice(lots) * SumQty(lots) <= Cost(lots) <= MaxPrice(lots) * SumQty(lots)
  {
    PriceRange(lots);
    CostBounds(lots, MinPrice(lots), MaxPrice(lots));
  }

  /** One closed slice, as the per-slice ledgers record it. */
  datatype SliceTrade<I> = SliceTrade(
    entryTime: int, exitTime: int, qty: real,
    entryPrice: real, exitPrice: real, pnl: real,
    buyOrder: I, sellOrder: I)

  /** The buy a closed slice was opened by. */
  function EntryOf<I>(t: SliceTrade<I>): Origin<I> {
    Origin(t.entryPrice, t.entryTime, t.buyOrder)
  }

  function Close<I>(lot: Lot<I>, price: real, time: int, sellOrder: I): SliceTrade<I> {
    SliceTrade(lot.time, time, lot.qty, lot.price, price, (price - lot.price) * lot.qty, lot.id, sellOrder)
  }

  /** The trades a per-slice ledger emits for the slices a sell took. */
  function ClosedBy<I>(taken: seq<Lot<I>>, price: real, time: int, sellOrder: I): seq<SliceTrade<I>> {
    if taken == [] then [] else [Close(taken[0], price, time, sellOrder)] + ClosedBy(taken[1..], price, time, sellOrder)
  }

  function TradeQty<I>(trades: seq<SliceTrade<I>>): real {
    if trades == [] then 0.0 else trades[0].qty + TradeQty(trades[1..])
  }

  function TradePnl<I>(trades: seq<SliceTrade<I>>): real {
    if trades == [] then 0.0 else trades[0].pnl + TradePnl(trades[1..])
  }

  lemma {:induction false} ClosedByAppend<I>(a: seq<Lot<I>>, b: seq<Lot<I>>, price: real, time: int, sellOrder: I)
    ensures ClosedBy(a + b, price, time, sellOrder) == ClosedBy(a, price, time, sellOrder) + ClosedBy(b, price, time, sellOrder)
    decreases |a|
  {
    if a == [] {
      assert a + b == b;
    } else {
      assert (a + b)[1..] == a[1..] + b;
      ClosedByAppend(a[1..], b, price, time, sellOrder);
    }
  }

  /** One trade per taken slice, in slice order, each the `Close` of its
      slice; the trade quantities add up to the taken quantity. */
  lemma {:induction false} ClosedBySlices<I>(taken: seq<Lot<I>>, price: real, time: int, sellOrder: I)
    ensures var ts := ClosedBy(taken, price, time, sellOrder);
      && |ts| == |taken|
      && TradeQty(ts) == SumQty(taken)
      && forall k :: 0 <= k < |ts| ==> ts[k] == Close(taken[k], price, time, sellOrder)
    decreases |taken|
  {
    if taken != [] {
      var ts := ClosedBy(taken, price, time, sellOrder);
      var tail := ClosedBy(taken[1..], price, time, sellOrder);
      ClosedBySlices(taken[1..], price, time, sellOrder);
      assert ts == [Close(taken[0], price, time, sellOrder)] + tail;
      assert ts[1..] == tail;
      forall k | 1 <= k < |ts|
        ensures ts[k] == Close(taken[k], price, time, sellOrder)
      {
        assert ts[k] == tail[k - 1];
        assert taken[1..][k - 1] == taken[k];
      }
    }
  }

  /** `ts` closes the front of `lots` slice by slice: the k-th trade closes
      at most the k-th lot, all but the last close their lot whole; each
      trade carries its lot's price, time and id as entry, the given exit,
      and `pnl = (exit - entry) * qty`. */
  ghost predicate FrontSlices<I>(lots: seq<Lot<I>>, ts: seq<SliceTrade<I>>, price: real, time: int, id: I) {
    && |ts| <= |lots|
    && forall k :: 0 <= k < |ts| ==>
         && ts[k].qty <= lots[k].qty && (k < |ts| - 1 ==> ts[k].qty == lots[k].qty)
         && ts[k].entryPrice == lots[k].price && ts[k].entryTime == lots[k].time && ts[k].buyOrder == lots[k].id
         && ts[k].exitPrice == price && ts[k].exitTime == time && ts[k].sellOrder == id
         && ts[k].pnl == (price - ts[k].entryPrice) * ts[k].qty
  }

  lemma {:induction false} ClosedFromQueue<I>(lots: seq<Lot<I>>, want: real, price: real, time: int, id: I)
    ensures FrontSlices(lots, ClosedBy(Consume(lots, want).taken, price, time, id), price, time, id)
  {
    var taken := Consume(lots, want).taken;
    ConsumeOrigins(lots, want);
    ConsumeSlices(lots, want);
    ClosedBySlices(taken, price, time, id);
    SlicesOfFront(lots, taken, ClosedBy(taken, price, time, id), price, time, id);
  }

  lemma {:induction false} SlicesOfFront<I>(lots: seq<Lot<I>>, taken: seq<Lot<I>>, ts: seq<SliceTrade<I>>, price: real, time: int, id: I)
    requires |ts| == |taken| && FrontOf(taken, lots)
    requires forall k :: 0 <= k < |taken| ==>
      taken[k].qty <= lots[k].qty && (k < |taken| - 1 ==> taken[k].qty == lots[k].qty)
    requires forall k :: 0 <= k < |ts| ==> ts[k] == Close(taken[k], price, time, id)
    ensures FrontSlices(lots, ts, price, time, id)
  {
    forall k | 0 <= k < |ts|
      ensures && ts[k].qty <= lots[k].qty && (k < |ts| - 1 ==> ts[k].qty == lots[k].qty)
        && ts[k].entryPrice == lots[k].price && ts[k].entryTime == lots[k].time && ts[k].buyOrder == lots[k].id
        && ts[k].exitPrice == price && ts[k].exitTime == time && ts[k].sellOrder == id
        && ts[k].pnl == (price - ts[k].entryPrice) * ts[k].qty
    {
      assert ts[k] == Close(taken[k], price, time, id);
      assert SameOrigin(taken[k], lots[k]);
    }
  }

  predicate TradesPositive<I>(ts: seq<SliceTrade<I>>) {
    forall k :: 0 <= k < |ts| ==> ts[k].qty > 0.0
  }

  /** How much a positive sell closes against positive lots: something
      exactly when the queue is not empty, every slice positive, and
      `min(want, open quantity)` in all. */
  lemma {:induction false} ClosedAmount<I>(lots: seq<Lot<I>>, want: real, price: real, time: int, id: I)
    requires AllPositive(lots) && want > 0.0
    ensures var ts := ClosedBy(Consume(lots, want).taken, price, time, id);
      && (ts != [] <==> lots != [])
      && TradeQty(ts) == Min(want, SumQty(lots))
      && TradesPositive(ts)
  {
    var taken := Consume(lots, want).taken;
    ConsumeAmount(lots, want);
    ClosedBySlices(taken, price, time, id);
    if taken == [] {
      assert SumQty(taken) == 0.0;
    }
  }

  lemma {:induction false} TradeQtyAppend<I>(a: seq<SliceTrade<I>>, b: seq<SliceTrade<I>>)
    ensures TradeQty(a + b) == TradeQty(a) + TradeQty(b)
    decreases |a|
  {
    if a == [] {
      assert a + b == b;
    } else {
      assert (a + b)[1..] == a[1..] + b;
      TradeQtyAppend(a[1..], b);
    }
  }

  lemma {:induction false} TradePnlAppend<I>(a: seq<SliceTrade<I>>, b: seq<SliceTrade<I>>)
    ensures TradePnl(a + b) == TradePnl(a) + TradePnl(b)
    decreases |a|
  {
    if a == [] {
      assert a + b == b;
    } else {
      assert (a + b)[1..] == a[1..] + b;
      TradePnlAppend(a[1..], b);
    }
  }

  /** The queue after one step of the per-slice loop: the head shrunk by
      `closeQty`, popped if that leaves exactly 0. */
  function AfterClose<I>(lots: seq<Lot<I>>, closeQty: real): seq<Lot<I>>
    requires lots != []
  {
    var head := lots[0].(qty := lots[0].qty - closeQty);
    if head.qty == 0.0 then lots[1..] else [head] + lots[1..]
  }

  /** One iteration of the per-slice loop is one step of `Consume`: the
      slice it records, followed by what `Consume` takes from the queue
      it leaves, is what `Consume` takes from the queue it found. */
  lemma {:induction false} ConsumeStep<I>(lots: seq<Lot<I>>, want: real, done: seq<Lot<I>>)
    requires want > 0.0 && lots != []
    ensures var c := Min(lots[0].qty, want);
      && done + Consume(lots, want).taken == (done + [lots[0].(qty := c)]) + Consume(AfterClose(lots, c), want - c).taken
      && Consume(lots, want).rest == Consume(AfterClose(lots, c), want - c).rest
  {
    var c := Min(lots[0].qty, want);
    if lots[0].qty <= want {
      assert lots[0].(qty := c) == lots[0];
    } else {
      assert Consume(AfterClose(lots, c), want - c) == Split([], AfterClose(lots, c));
    }
  }

  /** The same step as the weighted-average ledger writes it: pop a head
      lot that fits, otherwise shrink it by what is still wanted. */
  lemma {:induction false} AfterCloseCases<I>(lots: seq<Lot<I>>, want: real)
    requires lots != []
    ensures lots[0].qty <= want ==> AfterClose(lots, Min(lots[0].qty, want)) == lots[1..]
    ensures lots[0].qty > want ==> AfterClose(lots, Min(lots[0].qty, want)) == [lots[0].(qty := lots[0].qty - want)] + lots[1..]
  {
  }

  /** `Consume` unrolled once in the per-slice ledgers' own terms: close
      `min(head qty, want)` against the head, shrink it, pop it at 0, and
      consume the rest from what is left. */
  lemma {:induction false} ConsumeHead<I>(lots: seq<Lot<I>>, want: real)
    requires want > 0.0 && lots != []
    ensures var c := Min(lots[0].qty, want); var r := Consume(AfterClose(lots, c), want - c);
      Consume(lots, want) == Split([lots[0].(qty := c)] + r.taken, r.rest)
  {
    if lots[0].qty <= want {
      assert lots[0].(qty := lots[0].qty) == lots[0];
    }
  }

  /** One iteration of `CloseSlices` keeps its loop invariant, and either
      pops the head or leaves nothing to close. The primed names are the
      loop variables after the iteration. */
  lemma {:induction false} CloseStep<I>(all: Split<I>, rest: seq<Lot<I>>, want: real, trades: seq<SliceTrade<I>>,
                     closeQty: real, rest': seq<Lot<I>>, want': real, trades': seq<SliceTrade<I>>,
                     price: real, time: int, sellOrder: I)
    requires want > 0.0 && rest != []
    requires all.rest == Consume(rest, want).rest
    requires ClosedBy(all.taken, price, time, sellOrder) == trades + ClosedBy(Consume(rest, want).taken, price, time, sellOrder)
    requires closeQty == Min(rest[0].qty, want) && want' == want - closeQty
    requires trades' == trades + [Close(rest[0].(qty := closeQty), price, time, sellOrder)]
    requires rest[0].qty - closeQty == 0.0 ==> rest' == rest[1..]
    requires rest[0].qty - closeQty != 0.0 ==> rest' == [rest[0].(qty := rest[0].qty - closeQty)] + rest[1..]
    ensures all.rest == Consume(rest', want').rest
    ensures ClosedBy(all.taken, price, time, sellOrder) == trades' + ClosedBy(Consume(rest', want').taken, price, time, sellOrder)
    ensures |rest'| < |rest| || want' <= 0.0
  {
    ConsumeHead(rest, want);
    assert rest' == AfterClose(rest, closeQty);
    var taken := [rest[0].(qty := closeQty)] + Consume(rest', want').taken;
    assert taken[1..] == Consume(rest', want').taken;
  }

  /** The inner `while qty_to_close > 0 and open_positions` loop of the
      per-slice ledgers: close `min(head qty, qty left)` against the head
      lot, record the slice, shrink the head and pop it when it reaches 0. */
  method CloseSlices<I>(open: seq<Lot<I>>, qty: real, price: real, time: int, sellOrder: I)
    returns (rest: seq<Lot<I>>, trades: seq<SliceTrade<I>>)
    ensures rest == Consume(open, qty).rest
    ensures trades == ClosedBy(Consume(open, qty).taken, price, time, sellOrder)
  {
    rest, trades := open, [];
    var qtyToClose := qty;
    ghost var all := Consume(open, qty);
    while qtyToClose > 0.0 && rest != []
      invariant all.rest == Consume(rest, qtyToClose).rest
      invariant ClosedBy(all.taken, price, time, sellOrder) == trades + ClosedBy(Consume(rest, qtyToClose).taken, price, time, sellOrder)
      decreases |rest|, if qtyToClose > 0.0 then 1 else 0
    {
      ghost var rest0, want0, trades0 := rest, qtyToClose, trades;
      var head := rest[0];
      var closeQty := Min(head.qty, qtyToClose);
      trades := trades + [Close(head.(qty := closeQty), price, time, sellOrder)];
      head := head.(qty := head.qty - closeQty);
      qtyToClose := qtyToClose - closeQty;
      if head.qty == 0.0 {
        rest := rest[1..];
      } else {
        rest := [head] + rest[1..];
      }
      CloseStep(all, rest0, want0, trades0, closeQty, rest, qtyToClose, trades, price, time, sellOrder);
    }
    assert Consume(rest, qtyToClose) == Split([], rest);
    assert trades + [] == trades;
  }
}
