/** Section 5 of `analyze_order_patterns` (analyze_order_patterns.py): one
    global FIFO queue over every row of the order export, whatever its
    contract. A row with a missing quantity, price or fill time is skipped;
    quantities are cut to integers; a buy opens a lot, and a sell closes one
    trade per lot slice, each at that lot's own price. */
module OrderPatterns {
  import opened Common
  import opened Fifo

  /** One row of the export: `Contract`, `B/S` as `ParseSide` reads it,
      and `filledQty`, `avgPrice`, `Fill Time` with None for a missing
      value (NaN or NaT). */
  datatype Row = Row(contract: string, side: Side, qty: Option<real>, price: Option<real>, time: Option<int>)

  /** `open_positions`: lots without an order id. */
  type Queue = seq<Lot<()>>
  type Trade = SliceTrade<()>

  /** `open_positions` and `closed_trades`. */
  datatype Book = Book(open: Queue, trades: seq<Trade>)

  /** Python's `int(x)` on a float: truncation toward zero. */
  function Trunc(x: real): int {
    if x >= 0.0 then x.Floor else -((-x).Floor)
  }

  /** `int` keeps the integer part and drops the fraction toward zero: it
      never moves a value away from zero, and moves it by less than one. */
  lemma TruncToZero(x: real)
    ensures var n := Trunc(x);
      && (x >= 0.0 ==> 0 <= n && n as real <= x < n as real + 1.0)
      && (x < 0.0 ==> n <= 0 && n as real - 1.0 < x <= n as real)
      && (IsWhole(x) ==> n as real == x)
  {
    if x < 0.0 {
      var m := (-x).Floor;
      assert m as real <= -x < m as real + 1.0;
      if IsWhole(x) {
        var f := x.Floor;
        assert f as real == x;
        assert (-f) as real == -x;
        assert m == -f;
      }
    }
  }

  /** The row passes the `pd.isna` test on quantity, price and time. */
  predicate IsComplete(r: Row) {
    r.qty.Some? && r.price.Some? && r.time.Some?
  }

  /** The quantity of a complete row after `int(qty)`. */
  function WholeQty(r: Row): real
    requires IsComplete(r)
  {
    Trunc(r.qty.value) as real
  }

  /** One iteration of the row loop. */
  function Apply(b: Book, r: Row): Book {
    if !IsComplete(r) then b
    else
      var qty := WholeQty(r);
      match r.side
      case Buy => Book(b.open + [Lot(qty, r.price.value, r.time.value, ())], b.trades)
      case Sell =>
        var s := Consume(b.open, qty);
        Book(s.rest, b.trades + ClosedBy(s.taken, r.price.value, r.time.value, ()))
      case Other => b
  }

  /** The book after the rows, in the order the loop visits them. */
  function Replay(rows: seq<Row>): Book {
    if rows == [] then Book([], [])
    else Apply(Replay(rows[..|rows| - 1]), rows[|rows| - 1])
  }

  /** The rows the loop does not skip. */
  function Complete(rows: seq<Row>): seq<Row> {
    if rows == [] then []
    else
      var last := rows[|rows| - 1];
      Complete(rows[..|rows| - 1]) + (if IsComplete(last) then [last] else [])
  }

  /** Total truncated quantity of the complete buy rows. */
  function BuyQty(rows: seq<Row>): real {
    if rows == [] then 0.0
    else
      var last := rows[|rows| - 1];
      BuyQty(rows[..|rows| - 1]) + (if IsComplete(last) && last.side == Buy then WholeQty(last) else 0.0)
  }

  predicate TradesWhole(ts: seq<Trade>) {
    forall k :: 0 <= k < |ts| ==> IsWhole(ts[k].qty)
  }

  /** The ledger loop of section 5, returning the lots left open and the
      closed trades. */
  method AnalyzeOrderPatterns(rows: seq<Row>) returns (openPositions: Queue, closedTrades: seq<Trade>)
    ensures Book(openPositions, closedTrades) == Replay(rows)
  {
    openPositions := [];
    closedTrades := [];
    for i := 0 to |rows|
      invariant Book(openPositions, closedTrades) == Replay(rows[..i])
    {
      var order := rows[i];
      assert rows[..i + 1][..i] == rows[..i];
      if order.qty.None? || order.price.None? || order.time.None? {
        continue;
      }
      var qty := Trunc(order.qty.value) as real;
      var price := order.price.value;
      var time := order.time.value;
      if order.side == Buy {
        openPositions := openPositions + [Lot(qty, price, time, ())];
      } else if order.side == Sell {
        var closed;
        openPositions, closed := CloseSlices(openPositions, qty, price, time, ());
        closedTrades := closedTrades + closed;
      }
    }
    assert rows[..|rows|] == rows;
  }

  /** Skipping: replaying only the complete rows gives the same book. */
  lemma {:induction false} IncompleteRowsIgnored(rows: seq<Row>)
    ensures Replay(Complete(rows)) == Replay(rows)
    decreases |rows|
  {
    if rows != [] {
      var init := rows[..|rows| - 1];
      var last := rows[|rows| - 1];
      IncompleteRowsIgnored(init);
      if IsComplete(last) {
        var c := Complete(init) + [last];
        assert Complete(rows) == c;
        assert c[..|c| - 1] == Complete(init);
      } else {
        assert Complete(rows) == Complete(init);
      }
    }
  }

  /** A buy appends exactly one lot at the back and leaves the trades
      alone; a sell never adds a lot: what stays open is the tail of the
      queue, lot for lot from the same buys, the head possibly shrunk. */
  lemma {:induction false} StepShape(b: Book, r: Row)
    requires IsComplete(r)
    ensures r.side == Buy ==>
      Apply(b, r) == Book(b.open + [Lot(WholeQty(r), r.price.value, r.time.value, ())], b.trades)
    ensures r.side == Sell ==> Apply(b, r).trades[..|b.trades|] == b.trades && TailOf(Apply(b, r).open, b.open)
    ensures r.side == Other ==> Apply(b, r) == b
  {
    if r.side == Sell {
      var s := Consume(b.open, WholeQty(r));
      assert Apply(b, r).open == s.rest;
      ConsumeOrigins(b.open, WholeQty(r));
    }
  }

  /** Every lot and every closed trade holds a whole quantity, because
      each row's quantity is cut to an integer before it reaches the queue. */
  lemma {:induction false} ReplayWhole(rows: seq<Row>)
    ensures AllWhole(Replay(rows).open) && TradesWhole(Replay(rows).trades)
    decreases |rows|
  {
    if rows != [] {
      var init := rows[..|rows| - 1];
      var r := rows[|rows| - 1];
      ReplayWhole(init);
      var b := Replay(init);
      if IsComplete(r) && r.side != Other {
        var q := WholeQty(r);
        assert IsWhole(q);
        if r.side == Sell {
          var s := Consume(b.open, q);
          ConsumeWhole(b.open, q);
          ClosedBySlices(s.taken, r.price.value, r.time.value, ());
          WholeTrades(b.trades, s.taken, ClosedBy(s.taken, r.price.value, r.time.value, ()), r.price.value, r.time.value);
        }
      }
    }
  }

  lemma {:induction false} WholeTrades(old_: seq<Trade>, taken: Queue, ts: seq<Trade>, price: real, time: int)
    requires TradesWhole(old_) && AllWhole(taken)
    requires |ts| == |taken| && forall k :: 0 <= k < |ts| ==> ts[k] == Close(taken[k], price, time, ())
    ensures TradesWhole(old_ + ts)
  {
    forall k | 0 <= k < |old_ + ts|
      ensures IsWhole((old_ + ts)[k].qty)
    {
      if k >= |old_| {
        assert (old_ + ts)[k] == Close(taken[k - |old_|], price, time, ());
      }
    }
  }

  /** Conservation: the quantity still open plus the quantity closed in
      trades is exactly the truncated quantity of the buy rows. */
  lemma {:induction false} ReplayConserves(rows: seq<Row>)
    ensures SumQty(Replay(rows).open) + TradeQty(Replay(rows).trades) == BuyQty(rows)
    decreases |rows|
  {
    if rows != [] {
      var init := rows[..|rows| - 1];
      var r := rows[|rows| - 1];
      ReplayConserves(init);
      var b := Replay(init);
      if IsComplete(r) {
        var q := WholeQty(r);
        match r.side
        case Buy =>
          SumQtyAppend(b.open, [Lot(q, r.price.value, r.time.value, ())]);
          Single(Lot(q, r.price.value, r.time.value, ()));
        case Sell =>
          var s := Consume(b.open, q);
          ConsumeConserves(b.open, q);
          ClosedBySlices(s.taken, r.price.value, r.time.value, ());
          TradeQtyAppend(b.trades, ClosedBy(s.taken, r.price.value, r.time.value, ()));
        case Other =>
      }
    }
  }

  /** A complete sell row closes the front of the queue slice by slice:
      the trades before it stay, and the new ones are `FrontSlices` of the
      queue at the sell's price and time. When the truncated quantity is
      positive and the lots are, they close `min(qty, open qty)` in all,
      every slice positive, and some trade exactly when something was open. */
  lemma {:induction false} SellCloses(b: Book, r: Row)
    requires IsComplete(r) && r.side == Sell
    ensures var b' := Apply(b, r); var n := |b.trades|;
      && n <= |b'.trades| && b'.trades[..n] == b.trades
      && FrontSlices(b.open, b'.trades[n..], r.price.value, r.time.value, ())
      && (WholeQty(r) > 0.0 && AllPositive(b.open) ==>
           && (b'.trades[n..] != [] <==> b.open != [])
           && TradeQty(b'.trades[n..]) == Min(WholeQty(r), SumQty(b.open))
           && TradesPositive(b'.trades[n..]))
  {
    var q := WholeQty(r);
    var ts := ClosedBy(Consume(b.open, q).taken, r.price.value, r.time.value, ());
    ClosedFromQueue(b.open, q, r.price.value, r.time.value, ());
    if q > 0.0 && AllPositive(b.open) {
      ClosedAmount(b.open, q, r.price.value, r.time.value, ());
    }
    var b' := Apply(b, r);
    assert b'.trades == b.trades + ts;
    assert b'.trades[|b.trades|..] == ts;
    assert b'.trades[..|b.trades|] == b.trades;
  }

  /** The queue is not split by contract: a sell of one contract closes a
      lot bought under another. */
  lemma {:induction false} ContractsShareQueue(buy: Row, sell: Row)
    requires IsComplete(buy) && IsComplete(sell)
    requires buy.side == Buy && sell.side == Sell && buy.contract != sell.contract
    requires WholeQty(buy) > 0.0 && WholeQty(sell) > 0.0
    ensures var b := Replay([buy, sell]);
      && |b.trades| == 1
      && b.trades[0].entryPrice == buy.price.value && b.trades[0].exitPrice == sell.price.value
      && b.trades[0].qty == Min(WholeQty(buy), WholeQty(sell))
  {
    var rows := [buy, sell];
    assert rows[..1] == [buy] && [buy][..0] == [];
    var lot := Lot(WholeQty(buy), buy.price.value, buy.time.value, ());
    assert Replay([buy]) == Book([lot], []);
    var s := Consume([lot], WholeQty(sell));
    if lot.qty <= WholeQty(sell) {
      assert [lot][1..] == [];
      assert s.taken == [lot];
    } else {
      assert s.taken == [lot.(qty := WholeQty(sell))];
    }
    ClosedBySlices(s.taken, sell.price.value, sell.time.value, ());
  }
}
