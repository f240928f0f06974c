/** The two computations of the web routes (app/routes.py): the PnL that
    `add_trade` stores with a new trade, and the `statistics` page's
    aggregation over the journal. */
module Statistics {
  import opened Common
  import opened TradeModel

  // ---------------------------------------------------------------------
  // add_trade

  /** The PnL `add_trade` stores: set only when the exit price and the
      exit date are both truthy (an exit price of 0.0 is falsy), and
      without any point value; otherwise the column default 0. */
  function NewTradePnl(t: Trade): real {
    if t.exitPrice.Some? && t.exitPrice.value != 0.0 && t.exitDate.Some? then
      if IsLong(t.direction) then (t.exitPrice.value - t.entryPrice) * t.positionSize
      else (t.entryPrice - t.exitPrice.value) * t.positionSize
    else 0.0
  }

  /** The trade `add_trade` saves: the parsed form fields with its PnL. */
  function AddTrade(form: Trade): (t: Trade) {
    form.(pnl := Some(NewTradePnl(form)))
  }

  /** The stored PnL of a trade with a non-zero exit price and an exit
      date is its favourable move times its size; `calculate_pnl` on the
      same trade is that times the ticker's point value. With no exit, or
      an exit price of 0.0, nothing is computed and 0 is stored. */
  lemma AddTradeVsModel(form: Trade)
    ensures var t := AddTrade(form);
      && t.pnl.Some?
      && (IsClosed(form) && form.exitPrice.value != 0.0 ==>
            && t.pnl.value == Move(form) * form.positionSize
            && CalculatePnl(form) == t.pnl.value * PointValue(form.ticker))
      && (!IsClosed(form) || form.exitPrice == Some(0.0) ==> t.pnl.value == 0.0)
  {
    if IsClosed(form) && form.exitPrice.value != 0.0 {
      PnlRule(form);
      var m, s, pv := Move(form), form.positionSize, PointValue(form.ticker);
      assert m * s * pv == (m * s) * pv;
    }
  }

  /** Long and short mirror each other in `add_trade` as well. */
  lemma AddTradeMirror(form: Trade, long: string, short: string)
    requires IsLong(long) && !IsLong(short)
    ensures NewTradePnl(form.(direction := long)) == -NewTradePnl(form.(direction := short))
  {
    var f := form.(direction := long);
    if f.exitPrice.Some? && f.exitPrice.value != 0.0 && f.exitDate.Some? {
      var x := f.exitPrice.value - f.entryPrice;
      assert (-x) * f.positionSize == -(x * f.positionSize);
    }
  }

  // ---------------------------------------------------------------------
  // statistics

  /** `t.pnl or 0`. */
  function PnlOf(t: Trade): real {
    if t.pnl.Some? then t.pnl.value else 0.0
  }

  predicate IsWin(t: Trade) {
    t.pnl.Some? && t.pnl.value > 0.0
  }

  predicate IsLoss(t: Trade) {
    t.pnl.Some? && t.pnl.value < 0.0
  }

  /** `winning`: trades whose PnL is set and positive. */
  function Winning(ts: seq<Trade>): nat {
    if ts == [] then 0
    else Winning(ts[..|ts| - 1]) + (if IsWin(ts[|ts| - 1]) then 1 else 0)
  }

  /** `losing`: trades whose PnL is set and negative. */
  function Losing(ts: seq<Trade>): nat {
    if ts == [] then 0
    else Losing(ts[..|ts| - 1]) + (if IsLoss(ts[|ts| - 1]) then 1 else 0)
  }

  /** Trades that count as neither: PnL unset or exactly zero. */
  function Flat(ts: seq<Trade>): nat {
    if ts == [] then 0
    else Flat(ts[..|ts| - 1]) + (if !IsWin(ts[|ts| - 1]) && !IsLoss(ts[|ts| - 1]) then 1 else 0)
  }

  /** The sum of `t.pnl or 0` over the trades. */
  function TotalPnl(ts: seq<Trade>): real {
    if ts == [] then 0.0
    else TotalPnl(ts[..|ts| - 1]) + PnlOf(ts[|ts| - 1])
  }

  /** `win_rate`, before rounding: the percentage of winning trades, 0
      when there are none. */
  function WinRate(ts: seq<Trade>): real {
    if |ts| == 0 then 0.0 else (Winning(ts) as real / |ts| as real) * 100.0
  }

  /** `avg_pnl`, before rounding: the mean of `t.pnl or 0`, 0 when there
      are no trades. */
  function AvgPnl(ts: seq<Trade>): real {
    if |ts| == 0 then 0.0 else TotalPnl(ts) / |ts| as real
  }

  /** `t.exit_date or t.entry_date` (a date is always truthy). */
  function RefDate(t: Trade): int {
    if t.exitDate.Some? then t.exitDate.value else t.entryDate
  }

  /** `dates`, one per trade, as instants (the `%Y-%m-%d` formatting is
      not modelled). */
  function RefDates(ts: seq<Trade>): seq<int> {
    if ts == [] then [] else RefDates(ts[..|ts| - 1]) + [RefDate(ts[|ts| - 1])]
  }

  /** `cumulative`: the running total after each trade. */
  function Cumulative(ts: seq<Trade>): seq<real> {
    if ts == [] then [] else Cumulative(ts[..|ts| - 1]) + [TotalPnl(ts)]
  }

  /** `symbol_names`: the tickers in the order `setdefault` first inserts
      them into the dictionary. */
  function Symbols(ts: seq<Trade>): seq<string> {
    if ts == [] then []
    else
      var names := Symbols(ts[..|ts| - 1]);
      var x := ts[|ts| - 1].ticker;
      if x in names then names else names + [x]
  }

  /** `symbol_dict[x]`: the sum of `t.pnl or 0` over the trades of ticker `x`. */
  function SymbolTotal(ts: seq<Trade>, x: string): real {
    if ts == [] then 0.0
    else SymbolTotal(ts[..|ts| - 1], x) + (if ts[|ts| - 1].ticker == x then PnlOf(ts[|ts| - 1]) else 0.0)
  }

  /** The per-symbol totals added up over a list of tickers. */
  function SumTotals(ts: seq<Trade>, names: seq<string>): real {
    if names == [] then 0.0
    else SumTotals(ts, names[..|names| - 1]) + SymbolTotal(ts, names[|names| - 1])
  }

  /** What the page is rendered with. */
  datatype Stats = Stats(
    total: nat,
    winRate: real,
    avgPnl: real,
    dates: seq<int>,
    cumulative: seq<real>,
    symbolNames: seq<string>,
    symbolPnls: seq<real>)

  /** The `statistics` route over the journal, already ordered by entry
      date; `round(…, 2)` is not applied. */
  method ComputeStatistics(trades: seq<Trade>) returns (s: Stats)
    ensures s.total == |trades| && s.winRate == WinRate(trades) && s.avgPnl == AvgPnl(trades)
    ensures s.dates == RefDates(trades) && s.cumulative == Cumulative(trades)
    ensures s.symbolNames == Symbols(trades)
    ensures |s.symbolPnls| == |s.symbolNames|
    ensures forall k :: 0 <= k < |s.symbolPnls| ==> s.symbolPnls[k] == SymbolTotal(trades, s.symbolNames[k])
  {
    var total := |trades|;
    var winRate := WinRate(trades);
    var avgPnl := AvgPnl(trades);

    var dates, cumulative := RunningTotals(trades);
    var names, symbolPnls := PnlBySymbol(trades);
    s := Stats(total, winRate, avgPnl, dates, cumulative, names, symbolPnls);
  }

  /** The loop building `dates` and `cumulative`: `cum` adds each set PnL. */
  method RunningTotals(trades: seq<Trade>) returns (dates: seq<int>, cumulative: seq<real>)
    ensures dates == RefDates(trades) && cumulative == Cumulative(trades)
  {
    cumulative := [];
    var cum := 0.0;
    dates := [];
    for i := 0 to |trades|
      invariant cum == TotalPnl(trades[..i])
      invariant cumulative == Cumulative(trades[..i]) && dates == RefDates(trades[..i])
    {
      var t := trades[i];
      assert trades[..i + 1][..i] == trades[..i] && trades[..i + 1][i] == t;
      dates := dates + [RefDate(t)];
      if t.pnl.Some? {
        cum := cum + t.pnl.value;
      }
      cumulative := cumulative + [cum];
    }
    assert trades[..|trades|] == trades;
  }

  /** The loop filling `symbol_dict` with `setdefault` and `+=`, then its
      keys and values in insertion order. */
  method PnlBySymbol(trades: seq<Trade>) returns (names: seq<string>, pnls: seq<real>)
    ensures names == Symbols(trades) && |pnls| == |names|
    ensures forall k :: 0 <= k < |pnls| ==> pnls[k] == SymbolTotal(trades, names[k])
  {
    names := [];
    var symbolDict: map<string, real> := map[];
    for i := 0 to |trades|
      invariant names == Symbols(trades[..i])
      invariant forall x :: x in symbolDict <==> x in names
      invariant forall x :: x in symbolDict ==> symbolDict[x] == SymbolTotal(trades[..i], x)
    {
      var t := trades[i];
      assert trades[..i + 1][..i] == trades[..i] && trades[..i + 1][i] == t;
      if t.ticker !in symbolDict {
        SymbolTotalAbsent(trades[..i], t.ticker);
        symbolDict := symbolDict[t.ticker := 0.0];
        names := names + [t.ticker];
      }
      assert symbolDict[t.ticker] == SymbolTotal(trades[..i], t.ticker);
      symbolDict := symbolDict[t.ticker := symbolDict[t.ticker] + PnlOf(t)];
      forall x | x in symbolDict
        ensures symbolDict[x] == SymbolTotal(trades[..i + 1], x)
      {
        assert SymbolTotal(trades[..i + 1], x) == SymbolTotal(trades[..i], x) + (if t.ticker == x then PnlOf(t) else 0.0);
      }
    }
    assert trades[..|trades|] == trades;
    pnls := seq(|names|, k requires 0 <= k < |names| => symbolDict[names[k]]);
  }

  // ---------------------------------------------------------------------
  // Properties

  /** Every trade is a win, a loss, or neither, and exactly one of these;
      so `winning + losing <= total`, and a trade whose PnL is unset or
      zero counts in neither. */
  lemma {:induction false} CountsPartition(ts: seq<Trade>)
    ensures Winning(ts) + Losing(ts) + Flat(ts) == |ts|
    ensures Winning(ts) + Losing(ts) <= |ts|
    decreases |ts|
  {
    if ts != [] {
      CountsPartition(ts[..|ts| - 1]);
    }
  }

  /** With no trades the rate and the average are 0; otherwise the rate
      is a percentage and the average times the count is the total. */
  lemma WinRateAndAverage(ts: seq<Trade>)
    ensures ts == [] ==> WinRate(ts) == 0.0 && AvgPnl(ts) == 0.0
    ensures 0.0 <= WinRate(ts) <= 100.0
    ensures ts != [] ==> AvgPnl(ts) * |ts| as real == TotalPnl(ts)
  {
    if ts != [] {
      var w, n := Winning(ts) as real, |ts| as real;
      assert w <= n by {
        CountsPartition(ts);
      }
      Ratio(w, n);
      Ratio(TotalPnl(ts), n);
    }
  }

  lemma Ratio(w: real, n: real)
    requires n > 0.0
    ensures (w / n) * n == w
    ensures 0.0 <= w <= n ==> 0.0 <= (w / n) * 100.0 <= 100.0
  {
    var q := w / n;
    assert q * n == w;
    if 0.0 <= w <= n {
      assert (1.0 - q) * n == n - w;
      ProductNonNegative(1.0 - q, n);
      ProductNonNegative(q, n);
    }
  }

  /** A product with a positive factor has the sign of the other. */
  lemma ProductNonNegative(m: real, n: real)
    requires n > 0.0 && m * n >= 0.0
    ensures m >= 0.0
  {
  }

  /** One date per trade: its exit date when it has one, its entry date
      otherwise. */
  lemma {:induction false} RefDatesAt(ts: seq<Trade>)
    ensures |RefDates(ts)| == |ts|
    ensures forall i :: 0 <= i < |ts| ==>
      RefDates(ts)[i] == (if ts[i].exitDate.Some? then ts[i].exitDate.value else ts[i].entryDate)
    decreases |ts|
  {
    if ts != [] {
      var init := ts[..|ts| - 1];
      RefDatesAt(init);
      assert forall i :: 0 <= i < |init| ==> init[i] == ts[i];
    }
  }

  /** One running total per trade: entry `i` is the sum of the set PnL of
      trades `0..i`, and the last one is the overall total. */
  lemma {:induction false} CumulativeRunning(ts: seq<Trade>)
    ensures |Cumulative(ts)| == |ts|
    ensures forall i :: 0 <= i < |ts| ==> Cumulative(ts)[i] == TotalPnl(ts[..i + 1])
    ensures ts != [] ==> Cumulative(ts)[|ts| - 1] == TotalPnl(ts)
    decreases |ts|
  {
    if ts != [] {
      var init := ts[..|ts| - 1];
      CumulativeRunning(init);
      forall i | 0 <= i < |ts|
        ensures Cumulative(ts)[i] == TotalPnl(ts[..i + 1])
      {
        if i < |init| {
          assert init[..i + 1] == ts[..i + 1];
        } else {
          assert ts[..i + 1] == ts;
        }
      }
      assert ts[..|ts|] == ts;
    }
  }

  /** Each ticker appears once in `symbol_names`, and exactly the tickers
      of the trades appear. */
  lemma {:induction false} SymbolsExact(ts: seq<Trade>)
    ensures forall i, j :: 0 <= i < j < |Symbols(ts)| ==> Symbols(ts)[i] != Symbols(ts)[j]
    ensures forall x :: x in Symbols(ts) <==> exists k :: 0 <= k < |ts| && ts[k].ticker == x
    decreases |ts|
  {
    if ts != [] {
      var init := ts[..|ts| - 1];
      SymbolsExact(init);
      assert forall k :: 0 <= k < |init| ==> init[k] == ts[k];
    }
  }

  /** A ticker no trade has totals 0. */
  lemma {:induction false} SymbolTotalAbsent(ts: seq<Trade>, x: string)
    requires x !in Symbols(ts)
    ensures SymbolTotal(ts, x) == 0.0
    decreases |ts|
  {
    if ts != [] {
      var init := ts[..|ts| - 1];
      assert x !in Symbols(init);
      SymbolTotalAbsent(init, x);
    }
  }

  /** One more trade raises the sum over distinct tickers by its PnL if
      its ticker is among them, and leaves it otherwise. */
  lemma {:induction false} SumTotalsStep(ts: seq<Trade>, t: Trade, names: seq<string>)
    requires forall i, j :: 0 <= i < j < |names| ==> names[i] != names[j]
    ensures SumTotals(ts + [t], names) == SumTotals(ts, names) + (if t.ticker in names then PnlOf(t) else 0.0)
    decreases |names|
  {
    var ts' := ts + [t];
    assert ts'[..|ts'| - 1] == ts;
    if names != [] {
      var init := names[..|names| - 1];
      SumTotalsStep(ts, t, init);
      assert t.ticker in names <==> t.ticker in init || t.ticker == names[|names| - 1];
      assert t.ticker == names[|names| - 1] ==> t.ticker !in init;
    }
  }

  /** The per-symbol totals add up to the overall total. */
  lemma {:induction false} SymbolTotalsSum(ts: seq<Trade>)
    ensures SumTotals(ts, Symbols(ts)) == TotalPnl(ts)
    decreases |ts|
  {
    if ts != [] {
      var init := ts[..|ts| - 1];
      var t := ts[|ts| - 1];
      var names := Symbols(init);
      assert ts == init + [t];
      SymbolTotalsSum(init);
      SymbolsExact(init);
      SumTotalsStep(init, t, names);
      if t.ticker !in names {
        var names' := names + [t.ticker];
        assert names'[..|names'| - 1] == names;
        SymbolTotalAbsent(init, t.ticker);
      }
    }
  }
}
