/** `test_pnl_calculations` (test_pnl_calculation.py): the filled orders
    are split by contract, and each contract is replayed against its own,
    freshly emptied FIFO queue. A sell closes one trade per lot slice, each
    at that lot's own price; a row whose fill time did not parse is
    skipped. */
module PnlCalculation {
  import opened Common
  import opened Fifo

  /** One CSV row after `to_datetime(..., errors='coerce')`: `Contract`,
      `Status`, `B/S` as `ParseSide` reads it, `filledQty`, `avgPrice`,
      `Fill Time` (None for NaT) and `orderId`. */
  datatype Row = Row(
    contract: string, status: string, side: Side,
    qty: real, price: real, fillTime: Option<int>, orderId: string)

  /** Open lots remember the buy's order id. */
  type Queue = seq<Lot<string>>
  type Trade = SliceTrade<string>

  /** `open_positions` and `trades` of one contract. */
  datatype Book = Book(open: Queue, trades: seq<Trade>)

  datatype SymbolReport = SymbolReport(symbol: string, trades: seq<Trade>, totalPnl: real)

  predicate IsFilled(r: Row) {
    Strip(r.status) == "Filled"
  }

  /** One iteration of the per-contract row loop. */
  function Apply(b: Book, r: Row): Book {
    match r.fillTime
    case None => b
    case Some(t) =>
      match r.side
      case Buy => Book(b.open + [Lot(r.qty, r.price, t, r.orderId)], b.trades)
      case Sell =>
        var s := Consume(b.open, r.qty);
        Book(s.rest, b.trades + ClosedBy(s.taken, r.price, t, r.orderId))
      case Other => b
  }

  /** The book after the rows `orders`, starting from an empty queue. */
  function Replay(orders: seq<Row>): Book {
    if orders == [] then Book([], [])
    else Apply(Replay(orders[..|orders| - 1]), orders[|orders| - 1])
  }

  /** `df[df['Contract'] == symbol]` on the filled rows, in row order. */
  function SymbolOrders(rows: seq<Row>, symbol: string): seq<Row> {
    if rows == [] then []
    else
      var last := rows[|rows| - 1];
      SymbolOrders(rows[..|rows| - 1], symbol) + (if IsFilled(last) && last.contract == symbol then [last] else [])
  }

  /** `df['Contract'].unique()` on the filled rows: each contract once, in
      order of first appearance. */
  function Contracts(rows: seq<Row>): seq<string> {
    if rows == [] then []
    else
      var init := Contracts(rows[..|rows| - 1]);
      var last := rows[|rows| - 1];
      if IsFilled(last) && last.contract !in init then init + [last.contract] else init
  }

  /** Total quantity of the timed buy rows: what entered the queue. */
  function BuyQty(orders: seq<Row>): real {
    if orders == [] then 0.0
    else
      var last := orders[|orders| - 1];
      BuyQty(orders[..|orders| - 1]) + (if last.fillTime.Some? && last.side == Buy then last.qty else 0.0)
  }

  /** The rows that carry a fill time. */
  function Timed(orders: seq<Row>): seq<Row> {
    if orders == [] then []
    else
      var last := orders[|orders| - 1];
      Timed(orders[..|orders| - 1]) + (if last.fillTime.Some? then [last] else [])
  }

  /** The row loop of one contract, `trades` and `sum(trade['pnl'])`. */
  method MatchSymbol(orders: seq<Row>) returns (trades: seq<Trade>, totalPnl: real)
    ensures trades == Replay(orders).trades
    ensures totalPnl == TradePnl(trades)
  {
    var openPositions: Queue := [];
    trades := [];
    for i := 0 to |orders|
      invariant Book(openPositions, trades) == Replay(orders[..i])
    {
      var order := orders[i];
      assert orders[..i + 1][..i] == orders[..i];
      if order.fillTime.None? {
        continue;
      }
      var dt := order.fillTime.value;
      if order.side == Buy {
        openPositions := openPositions + [Lot(order.qty, order.price, dt, order.orderId)];
      } else if order.side == Sell {
        var closed;
        openPositions, closed := CloseSlices(openPositions, order.qty, order.price, dt, order.orderId);
        trades := trades + closed;
      }
    }
    assert orders[..|orders|] == orders;
    totalPnl := TradePnl(trades);
  }

  /** `test_pnl_calculations`: one report per contract, in order of first
      appearance, each from a fresh queue over that contract's filled rows. */
  method PnlCalculations(rows: seq<Row>) returns (reports: seq<SymbolReport>)
    ensures |reports| == |Contracts(rows)|
    ensures forall i :: 0 <= i < |reports| ==>
      && reports[i].symbol == Contracts(rows)[i]
      && reports[i].trades == Replay(SymbolOrders(rows, Contracts(rows)[i])).trades
      && reports[i].totalPnl == TradePnl(reports[i].trades)
  {
    var symbols := Contracts(rows);
    reports := [];
    for i := 0 to |symbols|
      invariant |reports| == i
      invariant forall j :: 0 <= j < i ==>
        && reports[j].symbol == symbols[j]
        && reports[j].trades == Replay(SymbolOrders(rows, symbols[j])).trades
        && reports[j].totalPnl == TradePnl(reports[j].trades)
    {
      var symbolOrders := SymbolOrders(rows, symbols[i]);
      var trades, totalPnl := MatchSymbol(symbolOrders);
      reports := reports + [SymbolReport(symbols[i], trades, totalPnl)];
    }
  }

  /** What one timed sell row does to a queue of positive lots: the new
      trades are appended after the old ones, one per consumed lot in queue
      order, and there are some exactly when something was open. Every
      slice is positive; all but the last close their whole lot, the last
      at most its lot; each is priced at its lot's own price, time and buy
      order, closed at the sell's, with `pnl = (exit - entry) * close_qty`;
      together the slices close `min(sell qty, open qty)`. */
  lemma {:induction false} SellSlices(b: Book, r: Row)
    requires r.fillTime.Some? && r.side == Sell
    requires r.qty > 0.0 && AllPositive(b.open)
    ensures var b' := Apply(b, r); var n := |b.trades|;
      && n <= |b'.trades| && b'.trades[..n] == b.trades
      && var ts := b'.trades[n..];
      && (ts != [] <==> b.open != [])
      && TradeQty(ts) == Min(r.qty, SumQty(b.open))
      && TradesPositive(ts)
      && FrontSlices(b.open, ts, r.price, r.fillTime.value, r.orderId)
  {
    var t := r.fillTime.value;
    var ts := ClosedBy(Consume(b.open, r.qty).taken, r.price, t, r.orderId);
    ClosedFromQueue(b.open, r.qty, r.price, t, r.orderId);
    ClosedAmount(b.open, r.qty, r.price, t, r.orderId);
    var b' := Apply(b, r);
    assert b'.trades == b.trades + ts;
    assert b'.trades[|b.trades|..] == ts;
    assert b'.trades[..|b.trades|] == b.trades;
  }

  /** Rows without a fill time are skipped: replaying only the timed rows
      gives the same book. */
  lemma {:induction false} UntimedRowsIgnored(orders: seq<Row>)
    ensures Replay(Timed(orders)) == Replay(orders)
    decreases |orders|
  {
    if orders != [] {
      var init := orders[..|orders| - 1];
      var last := orders[|orders| - 1];
      UntimedRowsIgnored(init);
      if last.fillTime.Some? {
        var tm := Timed(init) + [last];
        assert Timed(orders) == tm;
        assert tm[..|tm| - 1] == Timed(init);
        assert Replay(tm) == Apply(Replay(Timed(init)), last);
      } else {
        assert Timed(orders) == Timed(init);
      }
    }
  }

  /** Conservation for one contract: open quantity plus closed quantity is
      the quantity of the timed buy rows. */
  lemma {:induction false} ReplayConserves(orders: seq<Row>)
    ensures SumQty(Replay(orders).open) + TradeQty(Replay(orders).trades) == BuyQty(orders)
    decreases |orders|
  {
    if orders != [] {
      var init := orders[..|orders| - 1];
      var r := orders[|orders| - 1];
      ReplayConserves(init);
      var b := Replay(init);
      if r.fillTime.Some? {
        match r.side
        case Buy =>
          SumQtyAppend(b.open, [Lot(r.qty, r.price, r.fillTime.value, r.orderId)]);
          Single(Lot(r.qty, r.price, r.fillTime.value, r.orderId));
        case Sell =>
          var s := Consume(b.open, r.qty);
          ConsumeConserves(b.open, r.qty);
          ClosedBySlices(s.taken, r.price, r.fillTime.value, r.orderId);
          TradeQtyAppend(b.trades, ClosedBy(s.taken, r.price, r.fillTime.value, r.orderId));
        case Other =>
      }
    }
  }

  /** The origins of the timed buy rows of `orders`, in row order. */
  function BuyOrigins(orders: seq<Row>): seq<Origin<string>> {
    if orders == [] then []
    else
      var r := orders[|orders| - 1];
      BuyOrigins(orders[..|orders| - 1])
        + (if r.fillTime.Some? && r.side == Buy then [Origin(r.price, r.fillTime.value, r.orderId)] else [])
  }

  /** Every open lot and every trade's entry side of `b` is one of `src`. */
  ghost predicate Sourced(b: Book, src: seq<Origin<string>>) {
    && (forall k :: 0 <= k < |b.open| ==> OriginOf(b.open[k]) in src)
    && (forall k :: 0 <= k < |b.trades| ==> EntryOf(b.trades[k]) in src)
  }

  lemma {:induction false} SellTradesSourced(b: Book, src: seq<Origin<string>>, r: Row)
    requires Sourced(b, src) && r.fillTime.Some? && r.side == Sell
    ensures forall k :: 0 <= k < |Apply(b, r).trades| ==> EntryOf(Apply(b, r).trades[k]) in src
  {
    var ts := ClosedBy(Consume(b.open, r.qty).taken, r.price, r.fillTime.value, r.orderId);
    ClosedFromQueue(b.open, r.qty, r.price, r.fillTime.value, r.orderId);
    var trades := b.trades + ts;
    assert Apply(b, r).trades == trades;
    forall k | 0 <= k < |trades|
      ensures EntryOf(trades[k]) in src
    {
      if k >= |b.trades| {
        var j := k - |b.trades|;
        assert trades[k] == ts[j];
        assert EntryOf(ts[j]) == OriginOf(b.open[j]);
      } else {
        assert trades[k] == b.trades[k];
      }
    }
  }

  lemma {:induction false} SellOpenSourced(b: Book, src: seq<Origin<string>>, r: Row)
    requires Sourced(b, src) && r.fillTime.Some? && r.side == Sell
    ensures forall k :: 0 <= k < |Apply(b, r).open| ==> OriginOf(Apply(b, r).open[k]) in src
  {
    var rest := Consume(b.open, r.qty).rest;
    assert forall k :: 0 <= k < |rest| ==> OriginOf(rest[k]) in src by {
      ConsumeOrigins(b.open, r.qty);
      TailSourced(b.open, rest, src);
    }
    assert Apply(b, r).open == rest;
  }

  lemma {:induction false} TailSourced(open: Queue, rest: Queue, src: seq<Origin<string>>)
    requires TailOf(rest, open)
    requires forall k :: 0 <= k < |open| ==> OriginOf(open[k]) in src
    ensures forall k :: 0 <= k < |rest| ==> OriginOf(rest[k]) in src
  {
    forall k | 0 <= k < |rest|
      ensures OriginOf(rest[k]) in src
    {
      var j := |open| - |rest| + k;
      assert SameOrigin(rest[k], open[j]);
      assert OriginOf(rest[k]) == OriginOf(open[j]);
    }
  }

  /** One row keeps every entry traceable to a buy row. */
  lemma {:induction false} SourcedStep(b: Book, init: seq<Row>, r: Row)
    requires Sourced(b, BuyOrigins(init))
    ensures Sourced(Apply(b, r), BuyOrigins(init + [r]))
  {
    var orders := init + [r];
    assert orders[..|orders| - 1] == init && orders[|orders| - 1] == r;
    var src := BuyOrigins(init);
    var src' := BuyOrigins(orders);
    assert forall o :: o in src ==> o in src';
    if r.fillTime.Some? {
      if r.side == Buy {
        assert src' == src + [Origin(r.price, r.fillTime.value, r.orderId)];
      } else if r.side == Sell {
        SellTradesSourced(b, src, r);
        SellOpenSourced(b, src, r);
      }
    }
  }

  /** Every open lot and every trade's entry side comes from a timed buy
      row of the replayed rows. */
  lemma {:induction false} ReplayProvenance(orders: seq<Row>)
    ensures Sourced(Replay(orders), BuyOrigins(orders))
    decreases |orders|
  {
    if orders != [] {
      var init := orders[..|orders| - 1];
      var r := orders[|orders| - 1];
      ReplayProvenance(init);
      SourcedStep(Replay(init), init, r);
      assert orders == init + [r];
    }
  }

  /** Each listed origin is a timed buy row of `orders`. */
  lemma {:induction false} BuyOriginsFromRows(orders: seq<Row>)
    ensures forall o :: o in BuyOrigins(orders) ==>
      exists row :: row in orders && row.side == Buy && row.fillTime == Some(o.time)
        && row.price == o.price && row.orderId == o.id
    decreases |orders|
  {
    if orders != [] {
      var init := orders[..|orders| - 1];
      var r := orders[|orders| - 1];
      BuyOriginsFromRows(init);
      forall o | o in BuyOrigins(orders)
        ensures exists row :: (row in orders && row.side == Buy && row.fillTime == Some(o.time)
          && row.price == o.price && row.orderId == o.id)
      {
        if o in BuyOrigins(init) {
          var row :| row in init && row.side == Buy && row.fillTime == Some(o.time)
            && row.price == o.price && row.orderId == o.id;
          assert row in orders;
        } else {
          assert r in orders;
        }
      }
    }
  }

  /** Every row `SymbolOrders` keeps is a filled row of that contract. */
  lemma {:induction false} SymbolOrdersOfContract(rows: seq<Row>, symbol: string)
    ensures forall row :: row in SymbolOrders(rows, symbol) ==> row in rows && row.contract == symbol && IsFilled(row)
    decreases |rows|
  {
    if rows != [] {
      var init := rows[..|rows| - 1];
      var last := rows[|rows| - 1];
      SymbolOrdersOfContract(init, symbol);
      forall row | row in SymbolOrders(rows, symbol)
        ensures row in rows && row.contract == symbol && IsFilled(row)
      {
        if row in SymbolOrders(init, symbol) {
          assert row in init;
        }
      }
    }
  }

  /** Contracts never mix: every trade in a contract's report was opened
      by a filled, timed buy row of that same contract, at that row's price
      and order id. */
  lemma {:induction false} TradesStayInContract(rows: seq<Row>, symbol: string)
    ensures forall t :: t in Replay(SymbolOrders(rows, symbol)).trades ==>
      exists row :: (row in rows && row.contract == symbol && IsFilled(row)
        && row.side == Buy && row.fillTime == Some(t.entryTime)
        && row.price == t.entryPrice && row.orderId == t.buyOrder)
  {
    var orders := SymbolOrders(rows, symbol);
    ReplayProvenance(orders);
    BuyOriginsFromRows(orders);
    SymbolOrdersOfContract(rows, symbol);
    forall t | t in Replay(orders).trades
      ensures exists row :: (row in rows && row.contract == symbol && IsFilled(row)
        && row.side == Buy && row.fillTime == Some(t.entryTime)
        && row.price == t.entryPrice && row.orderId == t.buyOrder)
    {
      var k :| 0 <= k < |Replay(orders).trades| && Replay(orders).trades[k] == t;
      assert EntryOf(t) in BuyOrigins(orders);
      var row :| row in orders && row.side == Buy && row.fillTime == Some(t.entryTime)
        && row.price == t.entryPrice && row.orderId == t.buyOrder;
      assert row in rows;
    }
  }

  /** `Contracts` lists every contract of a filled row exactly once. */
  lemma {:induction false} ContractsDistinct(rows: seq<Row>)
    ensures forall i, j :: 0 <= i < j < |Contracts(rows)| ==> Contracts(rows)[i] != Contracts(rows)[j]
    ensures forall c :: c in Contracts(rows) <==> exists row :: row in rows && IsFilled(row) && row.contract == c
    decreases |rows|
  {
    if rows != [] {
      var init := rows[..|rows| - 1];
      ContractsDistinct(init);
      assert rows == init + [rows[|rows| - 1]];
    }
  }
}
