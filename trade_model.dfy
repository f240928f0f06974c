/** The `Trade` record of the journal (app/models.py) and its PnL rule:
    a closed trade earns its price move times its size times the point
    value of its contract, with the sign of the move reversed for a short. */
module TradeModel {
  import opened Common

  /** One journal row. Dates are instants on an abstract integer clock;
      `pnl` is the stored column, `None` for NULL. Strategy and notes play
      no part in any computation here and are not carried. */
  datatype Trade = Trade(
    ticker: string,
    entryDate: int,
    exitDate: Option<int>,
    entryPrice: real,
    exitPrice: Option<real>,
    positionSize: real,
    direction: string,
    pnl: Option<real>)

  /** `TICKER_POINT_VALUES`: the dollar value of one point of each futures
      contract, keyed by upper-case root symbol. */
  const PointValues: map<string, real> := map[
    "MNQ" := 2.0,
    "NQ" := 20.0,
    "MES" := 5.0,
    "ES" := 50.0,
    "RTY" := 5.0,
    "M2K" := 5.0,
    "CL" := 1000.0,
    "MCL" := 100.0,
    "GC" := 100.0,
    "MGC" := 10.0,
    "SI" := 5000.0,
    "SIL" := 1000.0,
    "HG" := 25000.0,
    "PA" := 100.0,
    "PL" := 50.0,
    "ZB" := 1000.0,
    "ZN" := 1000.0,
    "ZF" := 1000.0,
    "ZT" := 1000.0,
    "GE" := 2500.0,
    "BTC" := 5.0,
    "MBT" := 0.1
  ]

  /** `TICKER_POINT_VALUES.get(ticker.upper(), 1)`. */
  function PointValue(ticker: string): real {
    var key := Upper(ticker);
    if key in PointValues then PointValues[key] else 1.0
  }

  predicate IsLong(direction: string) {
    Lower(direction) == "long"
  }

  /** The trade has both an exit price and an exit date. */
  predicate IsClosed(t: Trade) {
    t.exitPrice.Some? && t.exitDate.Some?
  }

  /** The price move in the trade's favour, per unit: exit minus entry for
      a long, entry minus exit otherwise. */
  function Move(t: Trade): real
    requires t.exitPrice.Some?
  {
    if IsLong(t.direction) then t.exitPrice.value - t.entryPrice
    else t.entryPrice - t.exitPrice.value
  }

  /** The `calculate_pnl` property. */
  function CalculatePnl(t: Trade): real {
    if t.exitPrice.Some? && t.exitDate.Some? then
      var pointValue := PointValue(t.ticker);
      if IsLong(t.direction) then (t.exitPrice.value - t.entryPrice) * t.positionSize * pointValue
      else (t.entryPrice - t.exitPrice.value) * t.positionSize * pointValue
    else 0.0
  }

  lemma UpperIdempotent(s: string)
    ensures Upper(Upper(s)) == Upper(s)
  {
    assert forall k :: 0 <= k < |s| ==> UpperChar(UpperChar(s[k])) == UpperChar(s[k]);
  }

  lemma LowerIdempotent(s: string)
    ensures Lower(Lower(s)) == Lower(s)
  {
    assert forall k :: 0 <= k < |s| ==> LowerChar(LowerChar(s[k])) == LowerChar(s[k]);
  }

  /** Every point value is positive; a ticker is looked up without regard
      to the case of its letters, and one missing from the table (after
      upper-casing) is worth 1 per point. */
  lemma PointValueLookup(ticker: string)
    ensures PointValue(ticker) > 0.0
    ensures PointValue(ticker) == PointValue(Upper(ticker))
    ensures PointValue(ticker) == PointValue(Lower(ticker))
    ensures Upper(ticker) !in PointValues ==> PointValue(ticker) == 1.0
  {
    UpperIdempotent(ticker);
    UpperOfLower(ticker);
  }

  lemma UpperOfLower(s: string)
    ensures Upper(Lower(s)) == Upper(s)
  {
    assert forall k :: 0 <= k < |s| ==> UpperChar(LowerChar(s[k])) == UpperChar(s[k]);
  }

  /** A few entries of the table, reached through lower- and mixed-case
      tickers, and the default for an unknown one. */
  lemma KnownPointValues()
    ensures PointValue("mnq") == 2.0 && PointValue("NQ") == 20.0
    ensures PointValue("Es") == 50.0 && PointValue("mbt") == 0.1
    ensures PointValue("AAPL") == 1.0
  {
    assert Upper("mnq") == "MNQ";
    assert Upper("NQ") == "NQ";
    assert Upper("Es") == "ES";
    assert Upper("mbt") == "MBT";
    assert Upper("AAPL") == "AAPL";
  }

  /** An open trade (no exit price or no exit date) has no PnL; a closed
      one earns its favourable move times size times point value. */
  lemma PnlRule(t: Trade)
    ensures !IsClosed(t) ==> CalculatePnl(t) == 0.0
    ensures IsClosed(t) ==> CalculatePnl(t) == Move(t) * t.positionSize * PointValue(t.ticker)
  {
  }

  /** PnL is proportional to the position size: `k` times the size earns
      `k` times the PnL, open or closed. */
  lemma PnlScale(t: Trade, k: real)
    ensures CalculatePnl(t.(positionSize := k * t.positionSize)) == k * CalculatePnl(t)
  {
    if IsClosed(t) {
      var pv := PointValue(t.ticker);
      var m := Move(t);
      PnlRule(t);
      PnlRule(t.(positionSize := k * t.positionSize));
      assert m * (k * t.positionSize) * pv == k * (m * t.positionSize * pv);
    }
  }

  /** The table's entry is what one contract earns on a one-point move in
      its favour, long or short; a one-point move against it loses as
      much. */
  lemma OnePointOneContract(t: Trade)
    requires IsClosed(t) && t.positionSize == 1.0
    ensures Move(t) == 1.0 ==> CalculatePnl(t) == PointValue(t.ticker)
    ensures Move(t) == -1.0 ==> CalculatePnl(t) == -PointValue(t.ticker)
  {
    PnlRule(t);
  }

  /** Long and short mirror each other: the same prices, size and ticker
      give exactly opposite PnL. */
  lemma PnlMirror(t: Trade, long: string, short: string)
    requires IsLong(long) && !IsLong(short)
    ensures CalculatePnl(t.(direction := long)) == -CalculatePnl(t.(direction := short))
  {
    if IsClosed(t) {
      var pv := PointValue(t.ticker);
      var x := t.exitPrice.value - t.entryPrice;
      assert (-x) * t.positionSize * pv == -(x * t.positionSize * pv);
    }
  }

  /** The case of the ticker does not matter. */
  lemma PnlTickerCase(t: Trade)
    ensures CalculatePnl(t.(ticker := Upper(t.ticker))) == CalculatePnl(t)
  {
    UpperIdempotent(t.ticker);
  }

  /** Nor does the case of the direction. */
  lemma PnlDirectionCase(t: Trade)
    ensures CalculatePnl(t.(direction := Lower(t.direction))) == CalculatePnl(t)
  {
    LowerIdempotent(t.direction);
  }

  /** For a closed trade of positive size, the PnL is positive exactly
      when the price moved in the trade's favour, negative exactly when it
      moved against it. */
  lemma PnlSign(t: Trade)
    requires IsClosed(t) && t.positionSize > 0.0
    ensures CalculatePnl(t) > 0.0 <==> Move(t) > 0.0
    ensures CalculatePnl(t) < 0.0 <==> Move(t) < 0.0
  {
    var m, s, pv := Move(t), t.positionSize, PointValue(t.ticker);
    PointValueLookup(t.ticker);
    PnlRule(t);
    ProductSign(m, s * pv);
    assert m * s * pv == m * (s * pv);
  }

  lemma ProductSign(m: real, w: real)
    requires w > 0.0
    ensures m * w > 0.0 <==> m > 0.0
    ensures m * w < 0.0 <==> m < 0.0
  {
    if m > 0.0 {
      assert m * w > 0.0;
    } else if m < 0.0 {
      assert (-m) * w > 0.0;
    }
  }
}
