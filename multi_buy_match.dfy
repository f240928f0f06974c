/** The matching half of `test_multi_buy_sell_logic`
    (test_multi_buy_import.py): in every (date, contract) group with at
    least two orders, the orders are sorted by time; each sell, in order, is
    priced against the weighted average of ALL remaining buys strictly
    earlier than it, sells `min(available, sell qty)`, and that quantity is
    then taken from those buys oldest-first. */
module MultiBuyMatch {
  import opened Common
  import opened Fifo
  import opened MultiBuyRows

  /** Remaining buys: quantity, price, `datetime` and `order_id`. */
  type Buy = Lot<string>

  /** One priced sell: the eligible buys it was averaged over, the sell's
      own quantity, price and time, the weighted-average entry, the
      quantity sold and the PnL. */
  datatype Match = Match(
    symbol: string, eligible: seq<Buy>, sellQuantity: real, sellPrice: real, sellTime: int,
    avgEntry: real, quantity: real, pnl: real)

  /** A run either finishes or stops at `ZeroDivisionError`, raised when
      the eligible buys add up to zero. */
  datatype Outcome<T> = Ok(value: T) | ZeroDivision

  /** `remaining_buys` and the sells priced so far. */
  datatype State = State(remaining: seq<Buy>, matches: seq<Match>)

  // ---------------------------------------------------------------------
  // `orders.sort(key=lambda x: x['datetime'])`

  predicate SortedByTime(s: seq<Order>) {
    forall i, j :: 0 <= i < j < |s| ==> s[i].datetime <= s[j].datetime
  }

  /** Put `x` after every order not later than it. */
  function Insert(s: seq<Order>, x: Order): seq<Order> {
    if s == [] || s[|s| - 1].datetime <= x.datetime then s + [x]
    else Insert(s[..|s| - 1], x) + [s[|s| - 1]]
  }

  /** A stable sort by `datetime`. */
  function SortByTime(orders: seq<Order>): seq<Order> {
    if orders == [] then []
    else Insert(SortByTime(orders[..|orders| - 1]), orders[|orders| - 1])
  }

  /** The orders at time `t`, in sequence order. */
  function AtTime(s: seq<Order>, t: int): seq<Order> {
    if s == [] then []
    else AtTime(s[..|s| - 1], t) + (if s[|s| - 1].datetime == t then [s[|s| - 1]] else [])
  }

  /** Where `Insert` puts `x`: after the last order not later than it. */
  function InsertPos(s: seq<Order>, x: Order): (n: nat)
    ensures n <= |s|
  {
    if s == [] || s[|s| - 1].datetime <= x.datetime then |s| else InsertPos(s[..|s| - 1], x)
  }

  lemma {:induction false} InsertSplit(s: seq<Order>, x: Order)
    ensures Insert(s, x) == s[..InsertPos(s, x)] + [x] + s[InsertPos(s, x)..]
    ensures forall k :: InsertPos(s, x) <= k < |s| ==> s[k].datetime > x.datetime
    ensures InsertPos(s, x) > 0 ==> s[InsertPos(s, x) - 1].datetime <= x.datetime
    decreases |s|
  {
    if s == [] || s[|s| - 1].datetime <= x.datetime {
      assert s[..|s|] == s;
    } else {
      var init := s[..|s| - 1];
      var n := InsertPos(init, x);
      InsertSplit(init, x);
      assert s[..n] == init[..n];
      assert s[n..] == init[n..] + [s[|s| - 1]];
      forall k | n <= k < |s|
        ensures s[k].datetime > x.datetime
      {
        if k < |s| - 1 {
          assert s[k] == init[k];
        }
      }
    }
  }

  /** Inserting into a sorted list keeps it sorted and adds exactly `x`. */
  lemma {:induction false} InsertFacts(s: seq<Order>, x: Order)
    requires SortedByTime(s)
    ensures SortedByTime(Insert(s, x))
    ensures multiset(Insert(s, x)) == multiset(s) + multiset{x}
  {
    var a, b := InsertShape(s, x);
    SortedAround(a, x, b);
  }

  /** `x` goes behind every order with the same time. */
  lemma {:induction false} InsertStable(s: seq<Order>, x: Order, t: int)
    ensures AtTime(Insert(s, x), t) == AtTime(s, t) + (if x.datetime == t then [x] else [])
  {
    var a, b := InsertShape(s, x);
    AtTimeAround(a, x, b, t);
  }

  /** `Insert` splits the list in two around `x`: what stays in front is
      not later than `x`, what goes behind is strictly later. */
  lemma {:induction false} InsertShape(s: seq<Order>, x: Order) returns (a: seq<Order>, b: seq<Order>)
    ensures s == a + b && Insert(s, x) == a + [x] + b
    ensures forall k :: 0 <= k < |b| ==> b[k].datetime > x.datetime
    ensures a != [] ==> a[|a| - 1].datetime <= x.datetime
  {
    var n := InsertPos(s, x);
    a, b := s[..n], s[n..];
    InsertSplit(s, x);
    forall k | 0 <= k < |b|
      ensures b[k].datetime > x.datetime
    {
      assert b[k] == s[n + k];
    }
    if n > 0 {
      assert a[|a| - 1] == s[n - 1];
    }
    assert s == a + b;
  }

  lemma {:induction false} SortedAround(a: seq<Order>, x: Order, b: seq<Order>)
    requires SortedByTime(a + b)
    requires forall k :: 0 <= k < |b| ==> b[k].datetime > x.datetime
    requires a != [] ==> a[|a| - 1].datetime <= x.datetime
    ensures SortedByTime(a + [x] + b)
  {
    var s := a + b;
    var n := |a|;
    var r := a + [x] + b;
    forall i, j | 0 <= i < j < |r|
      ensures r[i].datetime <= r[j].datetime
    {
      if j < n {
        assert r[i] == s[i] && r[j] == s[j];
      } else if j == n {
        assert r[i] == s[i] && s[i].datetime <= s[n - 1].datetime;
      } else if i < n {
        assert r[i] == s[i] && r[j] == s[j - 1];
      } else if i == n {
        assert r[j] == b[j - n - 1];
      } else {
        assert r[i] == s[i - 1] && r[j] == s[j - 1];
      }
    }
  }

  lemma {:induction false} AtTimeAround(a: seq<Order>, x: Order, b: seq<Order>, t: int)
    requires forall k :: 0 <= k < |b| ==> b[k].datetime > x.datetime
    ensures AtTime(a + [x] + b, t) == AtTime(a + b, t) + (if x.datetime == t then [x] else [])
  {
    var ax := a + [x];
    assert ax[..|ax| - 1] == a;
    AtTimeAppend(ax, b, t);
    AtTimeAppend(a, b, t);
    if x.datetime == t {
      AtTimeNone(b, t);
      assert AtTime(b, t) == [];
      assert AtTime(a + b, t) == AtTime(a, t) + [];
    }
  }

  lemma {:induction false} AtTimeAppend(a: seq<Order>, b: seq<Order>, t: int)
    ensures AtTime(a + b, t) == AtTime(a, t) + AtTime(b, t)
    decreases |b|
  {
    if b == [] {
      assert a + b == a;
    } else {
      var c := a + b;
      assert c[..|c| - 1] == a + b[..|b| - 1];
      AtTimeAppend(a, b[..|b| - 1], t);
    }
  }

  lemma {:induction false} AtTimeNone(b: seq<Order>, t: int)
    requires forall k :: 0 <= k < |b| ==> b[k].datetime > t
    ensures AtTime(b, t) == []
    decreases |b|
  {
    if b != [] {
      AtTimeNone(b[..|b| - 1], t);
    }
  }

  /** The sort returns the same orders, by non-decreasing time, and orders
      with equal times keep their input order (Python's sort is stable). */
  lemma {:induction false} SortFacts(orders: seq<Order>)
    ensures SortedByTime(SortByTime(orders))
    ensures multiset(SortByTime(orders)) == multiset(orders)
    ensures forall t :: AtTime(SortByTime(orders), t) == AtTime(orders, t)
    decreases |orders|
  {
    if orders != [] {
      var init := orders[..|orders| - 1];
      var x := orders[|orders| - 1];
      SortFacts(init);
      assert orders == init + [x];
      InsertFacts(SortByTime(init), x);
      forall t
        ensures AtTime(SortByTime(orders), t) == AtTime(orders, t)
      {
        InsertStable(SortByTime(init), x, t);
      }
    }
  }

  // ---------------------------------------------------------------------
  // `[o for o in orders if o['side'] == side]` and the buy records

  function WithSide(orders: seq<Order>, side: string): seq<Order> {
    if orders == [] then []
    else
      var last := orders[|orders| - 1];
      WithSide(orders[..|orders| - 1], side) + (if last.side == side then [last] else [])
  }

  function BuyOf(o: Order): Buy {
    Lot(o.quantity, o.price, o.datetime, o.orderId)
  }

  function BuysOf(orders: seq<Order>): seq<Buy> {
    seq(|orders|, i requires 0 <= i < |orders| => BuyOf(orders[i]))
  }

  predicate LotsByTime(s: seq<Buy>) {
    forall i, j :: 0 <= i < j < |s| ==> s[i].time <= s[j].time
  }

  /** Filtering a sorted list keeps it sorted and keeps only orders of
      that side. */
  lemma {:induction false} WithSideSorted(orders: seq<Order>, side: string)
    requires SortedByTime(orders)
    ensures SortedByTime(WithSide(orders, side))
    ensures forall k :: 0 <= k < |WithSide(orders, side)| ==> WithSide(orders, side)[k].side == side
    decreases |orders|
  {
    if orders != [] {
      var init := orders[..|orders| - 1];
      var last := orders[|orders| - 1];
      assert SortedByTime(init);
      WithSideSorted(init, side);
      WithSideBounded(init, side, last.datetime);
    }
  }

  lemma {:induction false} WithSideBounded(orders: seq<Order>, side: string, m: int)
    requires forall k :: 0 <= k < |orders| ==> orders[k].datetime <= m
    ensures forall k :: 0 <= k < |WithSide(orders, side)| ==> WithSide(orders, side)[k].datetime <= m
    decreases |orders|
  {
    if orders != [] {
      WithSideBounded(orders[..|orders| - 1], side, m);
    }
  }

  // ---------------------------------------------------------------------
  // `valid_buys = [buy for buy in remaining_buys if buy['datetime'] < sell['datetime']]`

  function Eligible(remaining: seq<Buy>, t: int): seq<Buy> {
    if remaining == [] then []
    else
      var last := remaining[|remaining| - 1];
      Eligible(remaining[..|remaining| - 1], t) + (if last.time < t then [last] else [])
  }

  /** The remaining buys that are not eligible, in order. */
  function Later(remaining: seq<Buy>, t: int): seq<Buy> {
    if remaining == [] then []
    else
      var last := remaining[|remaining| - 1];
      Later(remaining[..|remaining| - 1], t) + (if last.time < t then [] else [last])
  }

  /** Each eligible buy is strictly earlier than the sell and each other
      remaining buy is not. */
  lemma {:induction false} EligibleTimes(remaining: seq<Buy>, t: int)
    ensures forall k :: 0 <= k < |Eligible(remaining, t)| ==> Eligible(remaining, t)[k].time < t
    ensures forall k :: 0 <= k < |Later(remaining, t)| ==> Later(remaining, t)[k].time >= t
    decreases |remaining|
  {
    if remaining != [] {
      EligibleTimes(remaining[..|remaining| - 1], t);
    }
  }

  /** Positive buys stay positive in both parts. */
  lemma {:induction false} EligiblePositive(remaining: seq<Buy>, t: int)
    requires AllPositive(remaining)
    ensures AllPositive(Eligible(remaining, t)) && AllPositive(Later(remaining, t))
    decreases |remaining|
  {
    if remaining != [] {
      var init := remaining[..|remaining| - 1];
      assert AllPositive(init) by {
        forall k | 0 <= k < |init|
          ensures init[k].qty > 0.0
        {
          assert init[k] == remaining[k];
        }
      }
      EligiblePositive(init, t);
    }
  }

  /** Since `remaining_buys` is sorted by time, the eligible buys are its
      front, with the later buys behind them. */
  lemma {:induction false} EligibleFront(remaining: seq<Buy>, t: int)
    requires LotsByTime(remaining)
    ensures remaining == Eligible(remaining, t) + Later(remaining, t)
    decreases |remaining|
  {
    if remaining != [] {
      var init := remaining[..|remaining| - 1];
      var last := remaining[|remaining| - 1];
      if last.time < t {
        assert Eligible(remaining, t) == remaining && Later(remaining, t) == [] by {
          SortedBelowLast(remaining, t);
          AllEarlier(remaining, t);
        }
      } else {
        assert init == Eligible(init, t) + Later(init, t) by {
          SortedInit(remaining);
          EligibleFront(init, t);
        }
        var e := Eligible(init, t);
        var l := Later(init, t);
        assert Eligible(remaining, t) == e + [] == e;
        assert Later(remaining, t) == l + [last];
        assert remaining == init + [last];
        assert e + (l + [last]) == (e + l) + [last];
      }
    }
  }

  lemma SortedBelowLast(s: seq<Buy>, t: int)
    requires LotsByTime(s) && s != [] && s[|s| - 1].time < t
    ensures forall k :: 0 <= k < |s| ==> s[k].time < t
  {
    forall k | 0 <= k < |s|
      ensures s[k].time < t
    {
      assert s[k].time <= s[|s| - 1].time;
    }
  }

  lemma SortedInit(s: seq<Buy>)
    requires LotsByTime(s) && s != []
    ensures LotsByTime(s[..|s| - 1])
  {
    var init := s[..|s| - 1];
    forall i, j | 0 <= i < j < |init|
      ensures init[i].time <= init[j].time
    {
      assert init[i] == s[i] && init[j] == s[j];
    }
  }

  lemma {:induction false} AllEarlier(s: seq<Buy>, t: int)
    requires forall k :: 0 <= k < |s| ==> s[k].time < t
    ensures Eligible(s, t) == s && Later(s, t) == []
    decreases |s|
  {
    if s != [] {
      var init := s[..|s| - 1];
      var last := s[|s| - 1];
      forall k | 0 <= k < |init|
        ensures init[k].time < t
      {
        assert init[k] == s[k];
      }
      AllEarlier(init, t);
      assert Eligible(s, t) == init + [last];
      assert Later(s, t) == [] + [];
      assert s == init + [last];
    }
  }

  // ---------------------------------------------------------------------
  // One sell

  /** The body of `for sell_idx, sell in enumerate(sells)`: the new
      `remaining_buys` and the priced sell, if any buy was eligible. The
      allocation loop takes `sell_quantity` from the eligible buys oldest
      first; fully consumed buys leave the list and a partly consumed one
      stays in place with its quantity reduced. */
  function SellStep(remaining: seq<Buy>, sell: Order, symbol: string): Outcome<(seq<Buy>, Option<Match>)> {
    var valid := Eligible(remaining, sell.datetime);
    if valid == [] then Ok((remaining, None))
    else
      var total := SumQty(valid);
      if total == 0.0 then ZeroDivision
      else
        var avg := Cost(valid) / total;
        var quantity := Min(total, sell.quantity);
        var pnl := (sell.price - avg) * quantity;
        Ok((Consume(valid, quantity).rest + Later(remaining, sell.datetime),
            Some(Match(symbol, valid, sell.quantity, sell.price, sell.datetime, avg, quantity, pnl))))
  }

  /** The state after the sells, in order; a zero division stops the run. */
  function RunSells(buys: seq<Buy>, sells: seq<Order>, symbol: string): Outcome<State> {
    if sells == [] then Ok(State(buys, []))
    else
      match RunSells(buys, sells[..|sells| - 1], symbol)
      case ZeroDivision => ZeroDivision
      case Ok(st) =>
        match SellStep(st.remaining, sells[|sells| - 1], symbol)
        case ZeroDivision => ZeroDivision
        case Ok(step) =>
          Ok(State(step.0, st.matches + (if step.1.Some? then [step.1.value] else [])))
  }

  /** The body of `for (date, symbol), orders in …items()`. */
  function ProcessGroup(g: Group): Outcome<seq<Match>> {
    if |g.orders| < 2 then Ok([])
    else
      var orders := SortByTime(g.orders);
      var buys := WithSide(orders, "Buy");
      var sells := WithSide(orders, "Sell");
      if buys == [] || sells == [] then Ok([])
      else
        match RunSells(BuysOf(buys), sells, g.key.symbol)
        case ZeroDivision => ZeroDivision
        case Ok(st) => Ok(st.matches)
  }

  /** All groups in order; the first zero division ends the run. */
  function ProcessGroups(groups: seq<Group>): Outcome<seq<Match>> {
    if groups == [] then Ok([])
    else
      match ProcessGroups(groups[..|groups| - 1])
      case ZeroDivision => ZeroDivision
      case Ok(ms) =>
        match ProcessGroup(groups[|groups| - 1])
        case ZeroDivision => ZeroDivision
        case Ok(ms') => Ok(ms + ms')
  }

  function MatchedQty(ms: seq<Match>): real {
    if ms == [] then 0.0 else MatchedQty(ms[..|ms| - 1]) + ms[|ms| - 1].quantity
  }

  // ---------------------------------------------------------------------
  // What one sell does

  /** With positive buys a sell never divides by zero. When no remaining
      buy is strictly earlier, nothing changes and nothing is priced.
      Otherwise the sell is priced: `sell_quantity = min(available, sell
      qty)` over a positive available quantity. */
  lemma SellPrice(remaining: seq<Buy>, sell: Order, symbol: string)
    requires AllPositive(remaining)
    ensures var valid := Eligible(remaining, sell.datetime); var out := SellStep(remaining, sell, symbol);
      && out.Ok?
      && (valid == [] ==> out.value == (remaining, None))
      && (valid != [] ==>
           && out.value.1.Some?
           && var m := out.value.1.value;
           && SumQty(valid) > 0.0
           && m.quantity == Min(SumQty(valid), sell.quantity))
  {
    var valid := Eligible(remaining, sell.datetime);
    if valid != [] {
      assert SumQty(valid) > 0.0 by {
        EligiblePositive(remaining, sell.datetime);
        SumQtyPositive(valid);
      }
    }
  }

  /** A priced sell is matched against exactly the eligible buys, and each
      of them was filled strictly before the sell. */
  lemma SellEligible(remaining: seq<Buy>, sell: Order, symbol: string)
    requires SellStep(remaining, sell, symbol).Ok? && SellStep(remaining, sell, symbol).value.1.Some?
    ensures var valid := Eligible(remaining, sell.datetime); var m := SellStep(remaining, sell, symbol).value.1.value;
      && m.eligible == valid && valid != [] && m.sellTime == sell.datetime
      && m.sellPrice == sell.price && m.sellQuantity == sell.quantity && m.symbol == symbol
      && forall k :: 0 <= k < |m.eligible| ==> m.eligible[k].time < sell.datetime
  {
    EligibleTimes(remaining, sell.datetime);
  }

  /** The PnL of a positive sell against positive buys is bounded by
      selling the quantity at the cheapest and at the dearest eligible buy
      price: it is a profit when the sell price is above every eligible
      buy's price and a loss when it is below every one. */
  lemma SellPnl(remaining: seq<Buy>, sell: Order, symbol: string)
    requires AllPositive(remaining) && Eligible(remaining, sell.datetime) != [] && sell.quantity > 0.0
    ensures var valid := Eligible(remaining, sell.datetime); var out := SellStep(remaining, sell, symbol);
      && out.Ok? && out.value.1.Some?
      && var m := out.value.1.value;
      && m.quantity > 0.0
      && PnlBounded(m.pnl, sell.price, MinPrice(valid), MaxPrice(valid), m.quantity)
  {
    var valid := Eligible(remaining, sell.datetime);
    var lo, hi := MinPrice(valid), MaxPrice(valid);
    assert SumQty(valid) > 0.0 && lo <= Cost(valid) / SumQty(valid) <= hi by {
      EligiblePositive(remaining, sell.datetime);
      AverageBetween(valid);
    }
    SellFields(remaining, sell, symbol);
    MatchBounded(SellStep(remaining, sell, symbol).value.1.value, lo, hi);
  }

  /** A match's PnL is its quantity sold at its sell price against its
      entry. */
  predicate Priced(m: Match) {
    m.pnl == (m.sellPrice - m.avgEntry) * m.quantity
  }

  /** The fields of the match a sell with eligible buys of non-zero total
      is priced into. */
  lemma SellFields(remaining: seq<Buy>, sell: Order, symbol: string)
    requires Eligible(remaining, sell.datetime) != [] && SumQty(Eligible(remaining, sell.datetime)) != 0.0
    ensures var valid := Eligible(remaining, sell.datetime); var out := SellStep(remaining, sell, symbol);
      && out.Ok? && out.value.1.Some?
      && out.value.1.value.avgEntry == Cost(valid) / SumQty(valid)
      && out.value.1.value.quantity == Min(SumQty(valid), sell.quantity)
      && out.value.1.value.sellPrice == sell.price
      && Priced(out.value.1.value)
  {
  }

  /** The PnL of selling `q` at `price` lies between selling it at `hi`
      and at `lo`; it is a profit when `price` is above `hi` and a loss
      when it is below `lo`. */
  predicate PnlBounded(pnl: real, price: real, lo: real, hi: real, q: real) {
    && (price - hi) * q <= pnl <= (price - lo) * q
    && (price > hi ==> pnl > 0.0)
    && (price < lo ==> pnl < 0.0)
  }

  /** A match whose entry lies between `lo` and `hi`. */
  lemma MatchBounded(m: Match, lo: real, hi: real)
    requires lo <= m.avgEntry <= hi && m.quantity > 0.0 && Priced(m)
    ensures PnlBounded(m.pnl, m.sellPrice, lo, hi, m.quantity)
  {
    ScaleBetween(m.sellPrice - hi, m.sellPrice - m.avgEntry, m.sellPrice - lo, m.quantity);
  }

  /** Multiplying by a positive quantity keeps order and sign. */
  lemma ScaleBetween(lo: real, x: real, hi: real, q: real)
    requires lo <= x <= hi && q > 0.0
    ensures lo * q <= x * q <= hi * q
    ensures lo > 0.0 ==> x * q > 0.0
    ensures hi < 0.0 ==> x * q < 0.0
  {
    assert (x - lo) * q >= 0.0;
    assert (hi - x) * q >= 0.0;
    if lo > 0.0 {
      assert lo * q > 0.0;
    } else if hi < 0.0 {
      assert (-hi) * q > 0.0;
    }
  }

  /** The entry price of a priced sell is the quantity-weighted average of
      the eligible buys' prices, so it lies between the cheapest and the
      dearest of them. */
  lemma SellAverage(remaining: seq<Buy>, sell: Order, symbol: string)
    requires AllPositive(remaining) && Eligible(remaining, sell.datetime) != []
    ensures var valid := Eligible(remaining, sell.datetime); var out := SellStep(remaining, sell, symbol);
      && out.Ok? && out.value.1.Some?
      && out.value.1.value.avgEntry == Cost(valid) / SumQty(valid)
      && MinPrice(valid) <= out.value.1.value.avgEntry <= MaxPrice(valid)
  {
    var valid := Eligible(remaining, sell.datetime);
    EligiblePositive(remaining, sell.datetime);
    AverageBetween(valid);
  }

  /** The allocation takes from the front of `remaining_buys`: the first
      `n` buys (all eligible) leave the list, or the first `n - 1` leave
      and the `n`-th stays in place with a smaller, still positive
      quantity; every other buy is untouched. */
  lemma AllocationShape(remaining: seq<Buy>, sell: Order, symbol: string)
    requires LotsByTime(remaining)
    requires Eligible(remaining, sell.datetime) != [] && SellStep(remaining, sell, symbol).Ok?
    ensures var valid := Eligible(remaining, sell.datetime);
      var out := SellStep(remaining, sell, symbol).value;
      var n := |Consume(valid, out.1.value.quantity).taken|;
      var rem := out.0;
      && n <= |valid| <= |remaining|
      && (|| rem == remaining[n..]
          || (&& 0 < n && rem != []
              && rem == [remaining[n - 1].(qty := rem[0].qty)] + remaining[n..]
              && 0.0 < rem[0].qty < remaining[n - 1].qty))
  {
    var t := sell.datetime;
    var valid := Eligible(remaining, t);
    var later := Later(remaining, t);
    var q := SellStep(remaining, sell, symbol).value.1.value.quantity;
    var r := Consume(valid, q);
    EligibleFront(remaining, t);
    ConsumeFromFront(valid, q);
    FrontShape(valid, later, r);
  }

  lemma FrontShape(valid: seq<Buy>, later: seq<Buy>, r: Split<string>)
    requires TakenWhole(valid, r) || TakenPartly(valid, r)
    ensures var n := |r.taken|; var all := valid + later; var rem := r.rest + later;
      && n <= |valid|
      && (|| rem == all[n..]
          || (&& 0 < n && rem != []
              && rem == [all[n - 1].(qty := rem[0].qty)] + all[n..]
              && 0.0 < rem[0].qty < all[n - 1].qty))
  {
    var n := |r.taken|;
    var all := valid + later;
    assert all[n..] == valid[n..] + later;
    if TakenPartly(valid, r) {
      assert all[n - 1] == valid[n - 1];
    }
  }

  /** Conservation for one sell on positive, time-ordered buys: the buys
      lose exactly the quantity sold, and stay positive and in time order. */
  lemma SellConserves(remaining: seq<Buy>, sell: Order, symbol: string)
    requires LotsByTime(remaining) && AllPositive(remaining) && sell.quantity > 0.0
    ensures SellStep(remaining, sell, symbol).Ok?
    ensures var out := SellStep(remaining, sell, symbol).value;
      && SumQty(remaining) == SumQty(out.0) + (if out.1.Some? then out.1.value.quantity else 0.0)
      && (out.1.Some? ==> 0.0 < out.1.value.quantity <= sell.quantity)
      && AllPositive(out.0) && LotsByTime(out.0)
  {
    SellPrice(remaining, sell, symbol);
    var t := sell.datetime;
    var valid := Eligible(remaining, t);
    if valid != [] {
      var later := Later(remaining, t);
      var q := Min(SumQty(valid), sell.quantity);
      var r := Consume(valid, q);
      EligibleFront(remaining, t);
      EligiblePositive(remaining, t);
      assert SumQty(remaining) == SumQty(valid) + SumQty(later) by {
        SumQtyAppend(valid, later);
      }
      assert SumQty(valid) == q + SumQty(r.rest) by {
        ConsumeConserves(valid, q);
        ConsumeAmount(valid, q);
      }
      assert SumQty(r.rest + later) == SumQty(r.rest) + SumQty(later) by {
        SumQtyAppend(r.rest, later);
      }
      ConsumePositive(valid, q);
      PositiveAppend(r.rest, later);
      ConsumeOrigins(valid, q);
      TailSorted(valid, r.rest, later);
    }
  }

  lemma PositiveAppend(a: seq<Buy>, b: seq<Buy>)
    requires AllPositive(a) && AllPositive(b)
    ensures AllPositive(a + b)
  {
    forall k | 0 <= k < |a + b|
      ensures (a + b)[k].qty > 0.0
    {
      if k >= |a| {
        assert (a + b)[k] == b[k - |a|];
      }
    }
  }

  /** Replacing the eligible front by a tail of it keeps the time order. */
  lemma TailSorted(valid: seq<Buy>, rest: seq<Buy>, later: seq<Buy>)
    requires LotsByTime(valid + later) && TailOf(rest, valid)
    ensures LotsByTime(rest + later)
  {
    var all := valid + later;
    var m := |valid| - |rest|;
    var r := rest + later;
    forall i | 0 <= i < |r|
      ensures r[i].time == all[m + i].time
    {
      if i < |rest| {
        assert SameOrigin(rest[i], valid[m + i]);
      } else {
        assert r[i] == later[i - |rest|];
      }
    }
    forall i, j | 0 <= i < j < |r|
      ensures r[i].time <= r[j].time
    {
      assert all[m + i].time <= all[m + j].time;
    }
  }

  /** Over a run of positive sells against positive, time-ordered buys:
      no zero division, the buys stay positive and in time order, and the
      quantity still held plus the quantity sold is what was bought. */
  lemma {:induction false} RunConserves(buys: seq<Buy>, sells: seq<Order>, symbol: string)
    requires LotsByTime(buys) && AllPositive(buys)
    requires forall k :: 0 <= k < |sells| ==> sells[k].quantity > 0.0
    ensures RunSells(buys, sells, symbol).Ok?
    ensures var st := RunSells(buys, sells, symbol).value;
      && LotsByTime(st.remaining) && AllPositive(st.remaining)
      && SumQty(buys) == SumQty(st.remaining) + MatchedQty(st.matches)
    decreases |sells|
  {
    if sells != [] {
      var init := sells[..|sells| - 1];
      var sell := sells[|sells| - 1];
      RunConserves(buys, init, symbol);
      var st := RunSells(buys, init, symbol).value;
      SellConserves(st.remaining, sell, symbol);
      var step := SellStep(st.remaining, sell, symbol).value;
      var ms := st.matches + (if step.1.Some? then [step.1.value] else []);
      if step.1.Some? {
        assert ms[..|ms| - 1] == st.matches;
      } else {
        assert ms == st.matches;
      }
    }
  }

  /** A zero division ends the run: once a prefix of the sells hits it,
      so does the whole run. */
  lemma {:induction false} RunStuck(buys: seq<Buy>, sells: seq<Order>, i: nat, symbol: string)
    requires i <= |sells| && RunSells(buys, sells[..i], symbol).ZeroDivision?
    ensures RunSells(buys, sells, symbol).ZeroDivision?
    decreases |sells| - i
  {
    if i == |sells| {
      assert sells[..i] == sells;
    } else {
      var init := sells[..|sells| - 1];
      assert init[..i] == sells[..i];
      RunStuck(buys, init, i, symbol);
    }
  }

  lemma {:induction false} GroupsStuck(groups: seq<Group>, i: nat)
    requires i <= |groups| && ProcessGroups(groups[..i]).ZeroDivision?
    ensures ProcessGroups(groups).ZeroDivision?
    decreases |groups| - i
  {
    if i == |groups| {
      assert groups[..i] == groups;
    } else {
      var init := groups[..|groups| - 1];
      assert init[..i] == groups[..i];
      GroupsStuck(init, i);
    }
  }

  /** Buys read off a time-ordered list are in time order. */
  lemma BuysOfSorted(orders: seq<Order>)
    requires SortedByTime(orders)
    ensures LotsByTime(BuysOf(orders))
  {
    var b := BuysOf(orders);
    forall i, j | 0 <= i < j < |b|
      ensures b[i].time <= b[j].time
    {
      assert b[i].time == orders[i].datetime && b[j].time == orders[j].datetime;
    }
  }

  /** A group whose orders all have positive quantities never divides by
      zero, and the quantity its sells take is at most what its buys
      hold. */
  lemma GroupConserves(g: Group)
    requires forall k :: 0 <= k < |g.orders| ==> g.orders[k].quantity > 0.0
    ensures ProcessGroup(g).Ok?
    ensures MatchedQty(ProcessGroup(g).value) <= SideQty(g.orders, "Buy")
  {
    SideQtyNonNegative(g.orders, "Buy");
    if |g.orders| >= 2 {
      var orders := SortByTime(g.orders);
      assert SortedByTime(orders) && forall k :: 0 <= k < |orders| ==> orders[k].quantity > 0.0 by {
        SortFacts(g.orders);
        PositiveSorted(g.orders);
      }
      PositiveRun(orders, g.key.symbol);
      SideQtySorted(g.orders, "Buy");
      BuysHold(orders, "Buy");
    }
  }

  lemma PositiveRun(orders: seq<Order>, symbol: string)
    requires SortedByTime(orders) && forall k :: 0 <= k < |orders| ==> orders[k].quantity > 0.0
    ensures RunSells(BuysOf(WithSide(orders, "Buy")), WithSide(orders, "Sell"), symbol).Ok?
    ensures MatchedQty(RunSells(BuysOf(WithSide(orders, "Buy")), WithSide(orders, "Sell"), symbol).value.matches)
      <= SumQty(BuysOf(WithSide(orders, "Buy")))
  {
    var buys := WithSide(orders, "Buy");
    var sells := WithSide(orders, "Sell");
    assert LotsByTime(BuysOf(buys)) && AllPositive(BuysOf(buys)) by {
      WithSideSorted(orders, "Buy");
      WithSidePositive(orders, "Buy");
      BuysOfSorted(buys);
    }
    WithSidePositive(orders, "Sell");
    RunConserves(BuysOf(buys), sells, symbol);
    SumQtyPositive(RunSells(BuysOf(buys), sells, symbol).value.remaining);
  }

  /** The total quantity of the orders on one side. */
  function SideQty(orders: seq<Order>, side: string): real {
    if orders == [] then 0.0
    else
      var last := orders[|orders| - 1];
      SideQty(orders[..|orders| - 1], side) + (if last.side == side then last.quantity else 0.0)
  }

  lemma {:induction false} SideQtyAppend(a: seq<Order>, b: seq<Order>, side: string)
    ensures SideQty(a + b, side) == SideQty(a, side) + SideQty(b, side)
    decreases |b|
  {
    if b != [] {
      assert (a + b)[..|a + b| - 1] == a + b[..|b| - 1];
      SideQtyAppend(a, b[..|b| - 1], side);
    } else {
      assert a + b == a;
    }
  }

  lemma {:induction false} SideQtyNonNegative(orders: seq<Order>, side: string)
    requires forall k :: 0 <= k < |orders| ==> orders[k].quantity > 0.0
    ensures SideQty(orders, side) >= 0.0
    decreases |orders|
  {
    if orders != [] {
      SideQtyNonNegative(orders[..|orders| - 1], side);
    }
  }

  /** Sorting neither adds nor loses quantity on either side. */
  lemma {:induction false} SideQtySorted(orders: seq<Order>, side: string)
    ensures SideQty(SortByTime(orders), side) == SideQty(orders, side)
    decreases |orders|
  {
    if orders != [] {
      var init := orders[..|orders| - 1];
      var x := orders[|orders| - 1];
      SideQtySorted(init, side);
      var a, b := InsertShape(SortByTime(init), x);
      SideQtyAppend(a, b, side);
      SideQtyAppend(a + [x], b, side);
      SideQtyAppend(a, [x], side);
      assert [x][..0] == [];
    }
  }

  /** The buy records of one side's orders hold that side's quantity. */
  lemma {:induction false} BuysHold(orders: seq<Order>, side: string)
    ensures SumQty(BuysOf(WithSide(orders, side))) == SideQty(orders, side)
    decreases |orders|
  {
    if orders != [] {
      var init := orders[..|orders| - 1];
      var last := orders[|orders| - 1];
      BuysHold(init, side);
      var w := WithSide(init, side);
      if last.side == side {
        assert BuysOf(w + [last]) == BuysOf(w) + [BuyOf(last)];
        SumQtyAppend(BuysOf(w), [BuyOf(last)]);
        Single(BuyOf(last));
      } else {
        assert WithSide(orders, side) == w + [];
        assert w + [] == w;
      }
    }
  }

  /** A group of fewer than two orders, or one without a buy or without
      a sell, yields no match. */
  lemma GroupSkipped(g: Group)
    ensures |g.orders| < 2 ==> ProcessGroup(g) == Ok([])
    ensures (forall k :: 0 <= k < |g.orders| ==> g.orders[k].side != "Buy") ==> ProcessGroup(g) == Ok([])
    ensures (forall k :: 0 <= k < |g.orders| ==> g.orders[k].side != "Sell") ==> ProcessGroup(g) == Ok([])
  {
    if |g.orders| >= 2 {
      var orders := SortByTime(g.orders);
      NoSideSorted(g.orders, "Buy");
      NoSideSorted(g.orders, "Sell");
    }
  }

  lemma NoSideSorted(orders: seq<Order>, side: string)
    ensures (forall k :: 0 <= k < |orders| ==> orders[k].side != side) ==> WithSide(SortByTime(orders), side) == []
  {
    if forall k :: 0 <= k < |orders| ==> orders[k].side != side {
      var s := SortByTime(orders);
      SortFacts(orders);
      forall k | 0 <= k < |s|
        ensures s[k].side != side
      {
        assert s[k] in multiset(orders);
      }
      WithSideNone(s, side);
    }
  }

  lemma {:induction false} WithSideNone(orders: seq<Order>, side: string)
    requires forall k :: 0 <= k < |orders| ==> orders[k].side != side
    ensures WithSide(orders, side) == []
    decreases |orders|
  {
    if orders != [] {
      WithSideNone(orders[..|orders| - 1], side);
    }
  }

  /** Hence a run over groups whose orders all have positive quantities
      never aborts. */
  lemma {:induction false} GroupsConserve(groups: seq<Group>)
    requires forall i, k :: 0 <= i < |groups| && 0 <= k < |groups[i].orders| ==> groups[i].orders[k].quantity > 0.0
    ensures ProcessGroups(groups).Ok?
    decreases |groups|
  {
    if groups != [] {
      var init := groups[..|groups| - 1];
      assert forall i :: 0 <= i < |init| ==> init[i] == groups[i];
      GroupsConserve(init);
      GroupConserves(groups[|groups| - 1]);
    }
  }

  lemma PositiveSorted(orders: seq<Order>)
    requires forall k :: 0 <= k < |orders| ==> orders[k].quantity > 0.0
    ensures forall k :: 0 <= k < |SortByTime(orders)| ==> SortByTime(orders)[k].quantity > 0.0
  {
    SortFacts(orders);
    var s := SortByTime(orders);
    forall k | 0 <= k < |s|
      ensures s[k].quantity > 0.0
    {
      assert s[k] in multiset(orders);
      var j :| 0 <= j < |orders| && orders[j] == s[k];
    }
  }

  lemma {:induction false} WithSidePositive(orders: seq<Order>, side: string)
    requires forall k :: 0 <= k < |orders| ==> orders[k].quantity > 0.0
    ensures forall k :: 0 <= k < |WithSide(orders, side)| ==> WithSide(orders, side)[k].quantity > 0.0
    decreases |orders|
  {
    if orders != [] {
      WithSidePositive(orders[..|orders| - 1], side);
    }
  }

  // ---------------------------------------------------------------------
  // Methods with the source's loops

  /** The allocation loop over `valid_buys`: what is left of them. */
  method Allocate(valid: seq<Buy>, sellQuantity: real) returns (kept: seq<Buy>)
    ensures kept == Consume(valid, sellQuantity).rest
  {
    var remainingQuantityToAllocate := sellQuantity;
    kept := [];
    var i := 0;
    while i < |valid|
      invariant 0 <= i <= |valid|
      invariant kept + Consume(valid[i..], remainingQuantityToAllocate).rest == Consume(valid, sellQuantity).rest
      invariant kept != [] ==> remainingQuantityToAllocate == 0.0
    {
      if remainingQuantityToAllocate <= 0.0 {
        break;
      }
      var buy := valid[i];
      RestStep(valid, i, remainingQuantityToAllocate);
      if buy.qty <= remainingQuantityToAllocate {
        remainingQuantityToAllocate := remainingQuantityToAllocate - buy.qty;
      } else {
        kept := kept + [buy.(qty := buy.qty - remainingQuantityToAllocate)];
        remainingQuantityToAllocate := 0.0;
      }
      i := i + 1;
    }
    assert Consume(valid[i..], remainingQuantityToAllocate).rest == valid[i..];
    kept := kept + valid[i..];
  }

  /** The loop over the sells of one group; a zero division aborts. */
  method MatchSells(buys: seq<Buy>, sells: seq<Order>, symbol: string) returns (out: Outcome<State>)
    ensures out == RunSells(buys, sells, symbol)
  {
    var remainingBuys := buys;
    var matches: seq<Match> := [];
    for i := 0 to |sells|
      invariant RunSells(buys, sells[..i], symbol) == Ok(State(remainingBuys, matches))
    {
      var sell := sells[i];
      assert sells[..i + 1][..i] == sells[..i] && sells[..i + 1][i] == sell;
      var validBuys := Eligible(remainingBuys, sell.datetime);
      if validBuys == [] {
        assert SellStep(remainingBuys, sell, symbol) == Ok((remainingBuys, None));
        assert matches + [] == matches;
        continue;
      }
      var totalAvailableQuantity := SumQty(validBuys);
      if totalAvailableQuantity == 0.0 {
        RunStuck(buys, sells, i + 1, symbol);
        return ZeroDivision;
      }
      var weightedAvgPrice := Cost(validBuys) / totalAvailableQuantity;
      var sellQuantity := Min(totalAvailableQuantity, sell.quantity);
      var pnl := (sell.price - weightedAvgPrice) * sellQuantity;
      var kept := Allocate(validBuys, sellQuantity);
      var m := Match(symbol, validBuys, sell.quantity, sell.price, sell.datetime, weightedAvgPrice, sellQuantity, pnl);
      var next := kept + Later(remainingBuys, sell.datetime);
      ghost var step := SellStep(remainingBuys, sell, symbol);
      assert step.Ok? && step.value.0 == next && step.value.1.Some?;
      assert step.value.1.value == m by {
        var o := step.value.1.value;
        assert o.eligible == validBuys && o.symbol == symbol;
        assert o.avgEntry == weightedAvgPrice && o.quantity == sellQuantity && o.pnl == pnl;
      }
      assert RunSells(buys, sells[..i + 1], symbol) == Ok(State(next, matches + [m]));
      remainingBuys := next;
      matches := matches + [m];
    }
    assert sells[..|sells|] == sells;
    out := Ok(State(remainingBuys, matches));
  }

  /** The body of the group loop: a group of fewer than two orders, or
      without both a buy and a sell, yields nothing; otherwise its orders
      are sorted by time, split by side and its sells priced in order. */
  method MatchGroup(g: Group) returns (out: Outcome<seq<Match>>)
    ensures out == ProcessGroup(g)
  {
    if |g.orders| < 2 {
      return Ok([]);
    }
    var orders := SortByTime(g.orders);
    var buys := WithSide(orders, "Buy");
    var sells := WithSide(orders, "Sell");
    if buys == [] || sells == [] {
      return Ok([]);
    }
    var run := MatchSells(BuysOf(buys), sells, g.key.symbol);
    if run.ZeroDivision? {
      return ZeroDivision;
    }
    out := Ok(run.value.matches);
  }

  /** The loop over the groups, in the order they were first seen; a zero
      division in any group aborts the whole run. */
  method MatchGroups(groups: seq<Group>) returns (out: Outcome<seq<Match>>)
    ensures out == ProcessGroups(groups)
  {
    var matches: seq<Match> := [];
    for i := 0 to |groups|
      invariant ProcessGroups(groups[..i]) == Ok(matches)
    {
      var g := groups[i];
      assert groups[..i + 1][..i] == groups[..i] && groups[..i + 1][i] == g;
      var run := MatchGroup(g);
      if run.ZeroDivision? {
        GroupsStuck(groups, i + 1);
        return ZeroDivision;
      }
      matches := matches + run.value;
    }
    assert groups[..|groups|] == groups;
    out := Ok(matches);
  }

  /** `test_multi_buy_sell_logic`: read and group the rows, then price the
      sells of every group, in order. */
  method TestMultiBuySellLogic(rows: seq<Row>, p: Parsers) returns (out: Outcome<seq<Match>>)
    ensures out == ProcessGroups(Grouped(Admitted(rows, p)))
  {
    var groups := ReadGroups(rows, p);
    out := MatchGroups(groups);
  }

  /** One turn of the allocation loop, on what the queue has left. */
  lemma RestStep(valid: seq<Buy>, i: nat, want: real)
    requires i < |valid| && want > 0.0
    ensures var lots := valid[i..]; var buy := valid[i];
      && (buy.qty <= want ==> Consume(lots, want).rest == Consume(valid[i + 1..], want - buy.qty).rest)
      && (buy.qty > want ==>
            && Consume(lots, want).rest == [buy.(qty := buy.qty - want)] + valid[i + 1..]
            && Consume(valid[i + 1..], 0.0).rest == valid[i + 1..])
  {
    assert valid[i..][1..] == valid[i + 1..];
  }
}
