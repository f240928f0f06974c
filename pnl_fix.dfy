/** `calculate_pnl_with_commissions` (test_pnl_fix.py): a single FIFO
    queue of open lots for one MNQ contract stream. A buy opens a lot; a
    sell consumes lots oldest-first and emits ONE trade for the whole sell,
    priced at the weighted average of the consumed slices, dated at the
    oldest consumed lot, with PnL scaled by the MNQ point value 2 and a
    commission of 0.25 per contract per side. */
module PnlFix {
  import opened Common
  import opened Fifo

  /** `COMMISSION_PER_CONTRACT`, charged on every fill. */
  const CommissionPerContract: real := 0.25
  /** The MNQ point value written into the PnL formula. */
  const Multiplier: real := 2.0

  /** One parsed order row: `B/S`, `filledQty`, `avgPrice`, `datetime`. */
  datatype Fill = Fill(side: Side, qty: real, price: real, time: int)

  datatype AvgTrade = AvgTrade(
    entryTime: int, exitTime: int, quantity: real,
    entryPrice: real, exitPrice: real,
    pnl: real, commission: real, netPnl: real)

  /** `open_positions`: (quantity, price, datetime) tuples, oldest first. */
  type Queue = seq<Lot<()>>

  /** The trade a sell records from the slices it matched: none unless
      the matched quantity is positive. */
  function SellTrade(matched: Queue, price: real, time: int): Option<AvgTrade> {
    var totalQty := SumQty(matched);
    if totalQty > 0.0 && matched != [] then
      Some(MakeTrade(Cost(matched), totalQty, matched[0].time, price, time))
    else
      None
  }

  /** The record appended to `trades` once `total_qty > 0`. */
  function MakeTrade(totalCost: real, totalQty: real, entryTime: int, price: real, time: int): AvgTrade
    requires totalQty > 0.0
  {
    var avgEntryPrice := totalCost / totalQty;
    var pnl := (price - avgEntryPrice) * totalQty * Multiplier;
    var tradeCommission := totalQty * CommissionPerContract * 2.0;
    AvgTrade(entryTime, time, totalQty, avgEntryPrice, price, pnl, tradeCommission, pnl - tradeCommission)
  }

  /** The three locals the function keeps across rows. */
  datatype Book = Book(open: Queue, trades: seq<AvgTrade>, totalCommission: real)

  /** One iteration of the row loop. */
  function Apply(b: Book, f: Fill): Book {
    var commission := b.totalCommission + f.qty * CommissionPerContract;
    match f.side
    case Buy => Book(b.open + [Lot(f.qty, f.price, f.time, ())], b.trades, commission)
    case Sell =>
      var s := Consume(b.open, f.qty);
      var t := SellTrade(s.taken, f.price, f.time);
      Book(s.rest, if t.Some? then b.trades + [t.value] else b.trades, commission)
    case Other => b.(totalCommission := commission)
  }

  /** The state after the rows `fills`, starting from nothing open. */
  function Replay(fills: seq<Fill>): Book {
    if fills == [] then Book([], [], 0.0)
    else Apply(Replay(fills[..|fills| - 1]), fills[|fills| - 1])
  }

  function FillQty(fills: seq<Fill>): real {
    if fills == [] then 0.0 else FillQty(fills[..|fills| - 1]) + fills[|fills| - 1].qty
  }

  function BuyQty(fills: seq<Fill>): real {
    if fills == [] then 0.0
    else BuyQty(fills[..|fills| - 1]) + (if fills[|fills| - 1].side == Buy then fills[|fills| - 1].qty else 0.0)
  }

  function TradeQuantity(trades: seq<AvgTrade>): real {
    if trades == [] then 0.0 else TradeQuantity(trades[..|trades| - 1]) + trades[|trades| - 1].quantity
  }

  /** The sell loop `while remaining_sell_qty > 0 and open_positions`:
      pop a head lot that fits, otherwise shrink it in place, while
      accumulating `total_cost`, `total_qty` and `matched_positions`; then
      build the trade when `total_qty > 0`. */
  method MatchSell(open: Queue, qty: real, price: real, time: int) returns (rest: Queue, trade: Option<AvgTrade>)
    ensures rest == Consume(open, qty).rest
    ensures trade == SellTrade(Consume(open, qty).taken, price, time)
  {
    rest := open;
    var remainingSellQty := qty;
    var totalCost := 0.0;
    var totalQty := 0.0;
    var matchedPositions: Queue := [];
    ghost var all := Consume(open, qty);
    while remainingSellQty > 0.0 && rest != []
      invariant all.taken == matchedPositions + Consume(rest, remainingSellQty).taken
      invariant all.rest == Consume(rest, remainingSellQty).rest
      invariant totalCost == Cost(matchedPositions) && totalQty == SumQty(matchedPositions)
      decreases |rest|, if remainingSellQty > 0.0 then 1 else 0
    {
      var head := rest[0];
      ConsumeStep(rest, remainingSellQty, matchedPositions);
      AfterCloseCases(rest, remainingSellQty);
      ghost var next := AfterClose(rest, Min(head.qty, remainingSellQty));
      var matchedQty;
      if head.qty <= remainingSellQty {
        matchedQty := head.qty;
        rest := rest[1..];
      } else {
        matchedQty := remainingSellQty;
        rest := [head.(qty := head.qty - remainingSellQty)] + rest[1..];
      }
      assert rest == next;
      AppendSlice(matchedPositions, head, matchedQty);
      totalCost := totalCost + matchedQty * head.price;
      totalQty := totalQty + matchedQty;
      remainingSellQty := remainingSellQty - matchedQty;
      matchedPositions := matchedPositions + [head.(qty := matchedQty)];
    }
    assert Consume(rest, remainingSellQty) == Split([], rest);
    assert all.taken == matchedPositions;
    if totalQty > 0.0 {
      assert matchedPositions != [];
      trade := Some(MakeTrade(totalCost, totalQty, matchedPositions[0].time, price, time));
    } else {
      trade := None;
    }
  }

  /** `calculate_pnl_with_commissions`: the row loop, returning the trades
      and the total commission, which is 0.25 per contract over every
      fill, buys and sells alike. */
  method CalculatePnlWithCommissions(fills: seq<Fill>) returns (trades: seq<AvgTrade>, totalCommission: real)
    ensures trades == Replay(fills).trades
    ensures totalCommission == Replay(fills).totalCommission
    ensures totalCommission == CommissionPerContract * FillQty(fills)
  {
    trades := [];
    var openPositions: Queue := [];
    totalCommission := 0.0;
    for i := 0 to |fills|
      invariant Book(openPositions, trades, totalCommission) == Replay(fills[..i])
    {
      var f := fills[i];
      assert fills[..i + 1][..i] == fills[..i];
      totalCommission := totalCommission + f.qty * CommissionPerContract;
      if f.side == Buy {
        openPositions := openPositions + [Lot(f.qty, f.price, f.time, ())];
      } else if f.side == Sell {
        var trade;
        openPositions, trade := MatchSell(openPositions, f.qty, f.price, f.time);
        if trade.Some? {
          trades := trades + [trade.value];
        }
      }
    }
    assert fills[..|fills|] == fills;
    CommissionTotal(fills);
  }

  /** The running commission is 0.25 times the quantity of every fill seen. */
  lemma {:induction false} CommissionTotal(fills: seq<Fill>)
    ensures Replay(fills).totalCommission == CommissionPerContract * FillQty(fills)
    decreases |fills|
  {
    if fills != [] {
      CommissionTotal(fills[..|fills| - 1]);
    }
  }

  /** The trade built from a non-empty run of positive slices: it covers
      their whole quantity at their weighted-average price, which lies
      between the cheapest and the dearest slice, is dated at the first
      slice, and carries the MNQ-scaled PnL, the round-trip commission and
      the net PnL. */
  lemma {:induction false} SellTradeFacts(matched: Queue, price: real, time: int)
    requires matched != [] && AllPositive(matched)
    ensures SellTrade(matched, price, time).Some?
    ensures var t := SellTrade(matched, price, time).value;
      && t.quantity == SumQty(matched) > 0.0
      && t.entryPrice == Cost(matched) / t.quantity
      && MinPrice(matched) <= t.entryPrice <= MaxPrice(matched)
      && t.entryTime == matched[0].time
      && t.exitTime == time && t.exitPrice == price
      && t.pnl == (price - t.entryPrice) * t.quantity * 2.0
      && t.commission == t.quantity * 0.25 * 2.0
      && t.netPnl == t.pnl - t.commission
  {
    AverageBetween(matched);
  }

  /** What one sell does to a book whose lots are positive: it leaves
      `min(sell qty, open qty)` less in the queue and never adds a lot, and
      it records one trade exactly when something was open; that trade
      covers the whole matched quantity (see `SellTradeFacts`) and its
      entry time is the time of the oldest open lot. An unmatched
      remainder is dropped. */
  lemma {:induction false} SellStep(b: Book, f: Fill)
    requires f.side == Sell && f.qty > 0.0 && AllPositive(b.open)
    ensures var b' := Apply(b, f); var s := Consume(b.open, f.qty);
      && b'.open == s.rest && AllPositive(b'.open) && |b'.open| <= |b.open|
      && SumQty(b.open) == SumQty(b'.open) + Min(f.qty, SumQty(b.open))
      && b'.totalCommission == b.totalCommission + f.qty * 0.25
      && (b.open == [] ==> b'.open == [] && b'.trades == b.trades)
      && (b.open != [] ==>
           && s.taken != [] && AllPositive(s.taken)
           && SellTrade(s.taken, f.price, f.time).Some?
           && b'.trades == b.trades + [SellTrade(s.taken, f.price, f.time).value]
           && SellTrade(s.taken, f.price, f.time).value.quantity == Min(f.qty, SumQty(b.open))
           && SellTrade(s.taken, f.price, f.time).value.entryTime == b.open[0].time)
  {
    var s := Consume(b.open, f.qty);
    ConsumeAmount(b.open, f.qty);
    ConsumeConserves(b.open, f.qty);
    ConsumeOrigins(b.open, f.qty);
    if b.open != [] {
      SellTradeFacts(s.taken, f.price, f.time);
    } else {
      assert s.taken == [];
    }
  }

  /** Conservation over a whole run of positive fills: what is still open
      plus what was closed in trades is exactly what was bought. */
  lemma {:induction false} ReplayConserves(fills: seq<Fill>)
    requires forall k :: 0 <= k < |fills| ==> fills[k].qty > 0.0
    ensures AllPositive(Replay(fills).open)
    ensures SumQty(Replay(fills).open) + TradeQuantity(Replay(fills).trades) == BuyQty(fills)
    decreases |fills|
  {
    if fills != [] {
      var init := fills[..|fills| - 1];
      var f := fills[|fills| - 1];
      ReplayConserves(init);
      var b := Replay(init);
      match f.side
      case Buy =>
        SumQtyAppend(b.open, [Lot(f.qty, f.price, f.time, ())]);
      case Sell =>
        SellStep(b, f);
        var b' := Apply(b, f);
        if b.open != [] {
          assert b'.trades[..|b'.trades| - 1] == b.trades;
          SellTradeFacts(Consume(b.open, f.qty).taken, f.price, f.time);
        }
      case Other =>
    }
  }
}
