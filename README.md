# Trading journal ledgers in Dafny

This project models the profit-and-loss core of a futures trading journal:

- the FIFO ledgers that turn a broker's order export (rows of contract,
  side, filled quantity, average price and fill time) into closed trades:
  - `calculate_pnl_with_commissions` (test_pnl_fix.py): one averaged trade
    per sell, with a commission per contract;
  - `test_pnl_calculations` (test_pnl_calculation.py): one queue per
    contract, one trade per lot slice;
  - section 5 of `analyze_order_patterns` (analyze_order_patterns.py): one
    global queue, quantities cut to integers;
  - `test_multi_buy_sell_logic` (test_multi_buy_import.py): orders grouped
    by day and contract, each sell priced at the weighted average of the
    buys before it, then allocated FIFO;
- the `Trade` record, its point-value table and its `calculate_pnl`
  property (app/models.py);
- the PnL that `add_trade` stores and the figures of the `statistics`
  page (app/routes.py).

Each ledger is written twice:

- as a specification: a fold `Replay` (or `RunSells`) of one loop step
  `Apply` over the rows;
- as a `method` that runs the source's own loops and is proved equal to
  that fold.

The queue walk shared by the ledgers is the function `Fifo.Consume`. It
takes up to a wanted quantity from the front of a queue of lots. It pops
every lot it uses whole and shrinks the lot it uses partly. The lemmas
prove these properties:

- conservation of quantity;
- where each closed slice comes from;
- the bounds of the averaged prices;
- the behaviour of each ledger on the rows it skips.

Modules: `Common` (strip, case mapping, side parsing), `Fifo`, `PnlFix`,
`PnlCalculation`, `OrderPatterns`, `MultiBuyRows` (reading and grouping),
`MultiBuyMatch` (sorting, pricing, allocation), `TradeModel`, `Statistics`.

## Model

| member | source | states |
|---|---|---|
| Common.PaddedSide | test_pnl_calculation.py:33 | a `B/S` cell with any whitespace padding around `Buy` or `Sell` is read as that side |
| Common.StripFacts | test_pnl_calculation.py:20 | `strip` returns a contiguous part of the text that neither starts nor ends with whitespace, and what it drops on either side is all whitespace |
| Fifo.ConsumeConserves | test_pnl_calculation.py:49-74 | the quantity taken by a sell plus the quantity left open equals the quantity that was open |
| Fifo.ConsumeFromFront | test_pnl_fix.py:61-75 | a sell either takes a prefix of whole lots and leaves the rest untouched, or takes whole lots plus part of the next one and leaves that lot shrunk by exactly the part taken |
| Fifo.ConsumeOrigins | test_pnl_calculation.py:49-74 | slice k taken comes from lot k (same price, time and order id), and what stays open is the tail of the queue, lot for lot |
| Fifo.ConsumeSlices | test_pnl_calculation.py:51 | every slice is at most its lot's quantity, and every slice but the last closes its lot completely |
| Fifo.ConsumeAmount | analyze_order_patterns.py:71-86 | with positive lots and a positive sell, the quantity closed is `min(sell, open)`; something is closed exactly when something was open; a sell larger than the open quantity empties the queue; both parts stay positive |
| Fifo.ConsumePositive | test_pnl_calculation.py:71-74 | positive lots stay positive after a sell, in what it takes and in what it leaves |
| Fifo.ConsumeWithinWant | test_pnl_calculation.py:49-51 | a positive sell never closes more than its own quantity |
| Fifo.ConsumeWhole | analyze_order_patterns.py:66-86 | whole-number lots and a whole-number sell leave whole-number slices and lots |
| Fifo.AverageBetween | test_pnl_fix.py:79 | the quantity-weighted average price of positive lots lies between their lowest and highest price |
| Fifo.WeightedBounds | test_multi_buy_import.py:98-99 | lowest price times quantity <= total cost <= highest price times quantity |
| Fifo.ClosedBySlices | test_pnl_calculation.py:54-66 | one trade per slice, each carrying its lot's entry time, price and order id and `pnl = (exit - entry) * qty`; the trades' quantity sums to the slices' |
| Fifo.ClosedFromQueue | test_pnl_calculation.py:49-74 | the trades a sell emits are the front slices of the queue at the sell's price and time |
| Fifo.ClosedAmount | test_pnl_calculation.py:49-74 | with positive lots and a positive sell, the emitted trades close `min(sell, open)` in total, each slice positive, and some trade is emitted exactly when something was open |
| Fifo.CloseSlices | test_pnl_calculation.py:45-74 | the per-slice `while` loop leaves exactly the queue `Consume` leaves and emits exactly the trades of the slices it takes |
| PnlFix.MatchSell | test_pnl_fix.py:54-95 | the sell's `while` loop leaves the queue `Consume` leaves and records one averaged trade when something was matched, none otherwise |
| PnlFix.CalculatePnlWithCommissions | test_pnl_fix.py:30-99 | the row loop returns the trades of the fold and a total commission of 0.25 per contract of every fill |
| PnlFix.CommissionTotal | test_pnl_fix.py:45-47 | the total commission is 0.25 times the summed quantity of all fills, whatever their side |
| PnlFix.SellTradeFacts | test_pnl_fix.py:78-95 | a trade's quantity is the matched quantity, its entry price the weighted average (between the lowest and highest matched price), its entry time the oldest slice's time, `pnl = (exit - avg) * qty * 2`, commission `qty * 0.25 * 2`, net = pnl - commission |
| PnlFix.SellStep | test_pnl_fix.py:54-95 | a positive sell closes `min(sell, open)` from the front; it adds one trade starting at the oldest lot when anything was open, and none otherwise |
| PnlFix.ReplayConserves | test_pnl_fix.py:39-95 | for positive fills, the quantity still open plus the quantity in trades equals the bought quantity, and open lots stay positive |
| PnlCalculation.MatchSymbol | test_pnl_calculation.py:29-78 | the per-contract loop returns the trades of the fold and their summed PnL |
| PnlCalculation.PnlCalculations | test_pnl_calculation.py:20-78 | one report per distinct filled contract, in order of first appearance, each holding the fold over that contract's filled rows |
| PnlCalculation.SellSlices | test_pnl_calculation.py:45-74 | a timed positive sell keeps the earlier trades and appends front slices of the queue closing `min(qty, open)` in total, some exactly when something was open |
| PnlCalculation.UntimedRowsIgnored | test_pnl_calculation.py:39-40 | dropping the rows without a fill time leaves the ledger unchanged |
| PnlCalculation.ReplayConserves | test_pnl_calculation.py:32-74 | quantity still open plus quantity closed equals the quantity of the timed buy rows |
| PnlCalculation.ReplayProvenance | test_pnl_calculation.py:42-66 | every open lot and every trade's entry comes from a timed buy row of the ledger (price, time and order id) |
| PnlCalculation.BuyOriginsFromRows | test_pnl_calculation.py:42-43 | each recorded buy origin is some timed buy row's price, fill time and order id |
| PnlCalculation.SymbolOrdersOfContract | test_pnl_calculation.py:20-27 | the rows of a contract's ledger are filled rows of that contract |
| PnlCalculation.TradesStayInContract | test_pnl_calculation.py:25-66 | every trade of a contract's ledger was opened by a filled buy row of that same contract |
| PnlCalculation.ContractsDistinct | test_pnl_calculation.py:23 | the contracts are distinct, and a contract is listed exactly when some filled row names it |
| OrderPatterns.TruncToZero | analyze_order_patterns.py:66 | `int()` truncates toward zero by less than one and keeps whole numbers |
| OrderPatterns.AnalyzeOrderPatterns | analyze_order_patterns.py:56-86 | the row loop returns the open lots and closed trades of the fold |
| OrderPatterns.IncompleteRowsIgnored | analyze_order_patterns.py:64-65 | dropping rows with a missing quantity, price or time leaves the ledger unchanged |
| OrderPatterns.StepShape | analyze_order_patterns.py:67-86 | a buy appends exactly one lot; a sell keeps the earlier trades and leaves the tail of the queue; any other side changes nothing |
| OrderPatterns.ReplayWhole | analyze_order_patterns.py:66-86 | every open lot and closed trade has a whole quantity |
| OrderPatterns.ReplayConserves | analyze_order_patterns.py:59-86 | quantity still open plus quantity closed equals the truncated quantity of the complete buy rows |
| OrderPatterns.SellCloses | analyze_order_patterns.py:69-86 | a sell appends front slices of the queue at its price and time; for positive amounts they close `min(qty, open)` in total |
| OrderPatterns.ContractsShareQueue | analyze_order_patterns.py:59-86 | a sell of one contract closes a lot bought under another contract |
| MultiBuyRows.TimePartFields | test_multi_buy_import.py:48 | the time part is the second space-separated field, or the whole cell when it has no space |
| MultiBuyRows.AdmitFacts | test_multi_buy_import.py:23-63 | a row reaches the grouping exactly when its stripped status is `Filled`, the five required cells are non-empty and the date parses, keyed by (date, contract); it carries an order exactly when both numbers parse too, dated that day and timed at the parsed clock, or at midnight |
| MultiBuyRows.FindFacts | test_multi_buy_import.py:54 | the lookup finds a group exactly when its key is present, and returns that group's position |
| MultiBuyRows.GroupedExactly | test_multi_buy_import.py:54-60 | each group holds exactly the orders of its key, in reading order, and none for a key whose rows all failed the number parse |
| MultiBuyRows.KeysDistinct | test_multi_buy_import.py:21-63 | group keys are distinct and follow the order in which rows first named them, counting rows whose numbers failed to parse after the key was created |
| MultiBuyRows.KeyBeforeOrder | test_multi_buy_import.py:54-63 | a row with a bad number still fixes its key's place: its group comes before a group first filled by a later row |
| MultiBuyRows.ReadGroups | test_multi_buy_import.py:21-63 | the reading loop builds exactly the grouping of the rows that reach the defaultdict, including the empty groups of keys created before `float` raised |
| MultiBuyMatch.InsertFacts | test_multi_buy_import.py:74 | inserting into a time-sorted list keeps it sorted and adds exactly that order |
| MultiBuyMatch.InsertStable | test_multi_buy_import.py:74 | insertion puts a new order after the orders with the same time |
| MultiBuyMatch.SortFacts | test_multi_buy_import.py:74 | the sort orders by time, is a permutation, and is stable: orders with equal times keep their relative order |
| MultiBuyMatch.WithSideSorted | test_multi_buy_import.py:77-78 | the buy and sell lists keep the time order and hold only their side |
| MultiBuyMatch.EligibleTimes | test_multi_buy_import.py:92 | eligible buys are strictly earlier than the sell, the rest are not |
| MultiBuyMatch.EligibleFront | test_multi_buy_import.py:92 | over time-sorted lots the eligible buys are a prefix of the remaining buys |
| MultiBuyMatch.SellPrice | test_multi_buy_import.py:92-102 | with positive quantities a sell with no eligible buy is skipped; otherwise it is matched for `min(available, sell)` |
| MultiBuyMatch.SellEligible | test_multi_buy_import.py:90-111 | a match records the eligible buys, all earlier than the sell, and the sell's time, price, quantity and contract |
| MultiBuyMatch.SellPnl | test_multi_buy_import.py:98-105 | for a positive sell against positive buys, the PnL lies between selling the matched quantity at the dearest and at the cheapest eligible buy price; it is a profit when the sell price is above every eligible price, and a loss when below every one |
| MultiBuyMatch.SellAverage | test_multi_buy_import.py:98-99 | the entry price is total cost over total quantity of the eligible buys, between their lowest and highest price |
| MultiBuyMatch.AllocationShape | test_multi_buy_import.py:114-129 | allocation drops the first n buys, or drops n - 1 of them and shrinks the n-th (to a positive quantity), and leaves the rest as they were |
| MultiBuyMatch.SellConserves | test_multi_buy_import.py:90-129 | with positive quantities a sell never divides by zero; the quantity matched leaves the remaining buys exactly; it is positive and at most the sell's; the remaining buys stay positive and sorted |
| MultiBuyMatch.RunConserves | test_multi_buy_import.py:87-129 | over a whole group, buy quantity equals quantity still remaining plus quantity matched, with no division by zero |
| MultiBuyMatch.RunStuck | test_multi_buy_import.py:99 | once a division by zero occurs, the whole run ends in it |
| MultiBuyMatch.GroupsStuck | test_multi_buy_import.py:69-99 | a division by zero in one group aborts the processing of all groups |
| MultiBuyMatch.GroupSkipped | test_multi_buy_import.py:70-81 | a group with fewer than two orders, or no buy, or no sell, yields no match |
| MultiBuyMatch.GroupConserves | test_multi_buy_import.py:69-129 | a group of positive quantities is processed without error, and its sells match in total at most the quantity its buy orders hold |
| MultiBuyMatch.SideQtySorted | test_multi_buy_import.py:74 | sorting by time keeps the total quantity of each side |
| MultiBuyMatch.GroupsConserve | test_multi_buy_import.py:69-129 | groups of positive quantities are all processed without error |
| MultiBuyMatch.Allocate | test_multi_buy_import.py:114-129 | the allocation loop leaves exactly the buys `Consume` leaves |
| MultiBuyMatch.MatchSells | test_multi_buy_import.py:87-129 | the sell loop returns the fold over the sells |
| MultiBuyMatch.MatchGroup | test_multi_buy_import.py:70-129 | one group's processing equals its specification |
| MultiBuyMatch.MatchGroups | test_multi_buy_import.py:69-129 | the group loop equals the fold over the groups |
| MultiBuyMatch.TestMultiBuySellLogic | test_multi_buy_import.py:21-129 | reading then matching equals the matching of the grouping of the admitted rows |
| TradeModel.PointValueLookup | app/models.py:56 | every point value is positive; the lookup ignores letter case; a ticker missing from the table is worth 1 |
| TradeModel.KnownPointValues | app/models.py:25-48 | `mnq` is 2, `NQ` 20, `Es` 50, `mbt` 0.1, and an unknown ticker 1 |
| TradeModel.PnlScale | app/models.py:53-61 | PnL is proportional to the position size, for open and closed trades alike |
| TradeModel.OnePointOneContract | app/models.py:25-61 | one contract on a closed one-point move earns exactly the table's point value when the move is favourable, and loses it when adverse, long or short |
| TradeModel.PnlMirror | app/models.py:57-60 | long and short of the same trade earn exactly opposite PnL |
| TradeModel.PnlTickerCase | app/models.py:56 | the PnL does not depend on the case of the ticker |
| TradeModel.PnlDirectionCase | app/models.py:57 | the PnL does not depend on the case of the direction |
| TradeModel.PnlSign | app/models.py:53-61 | for a closed trade of positive size the PnL is positive exactly when the move is favourable, negative exactly when it is adverse |
| Statistics.AddTradeVsModel | app/routes.py:46-54 | a new trade always has a stored PnL; with a nonzero exit price and an exit date it is the move times the size, so the model's PnL is it times the point value; otherwise it is 0 |
| Statistics.AddTradeMirror | app/routes.py:51-54 | the stored PnL of long and short are opposite |
| Statistics.ComputeStatistics | app/routes.py:78-103 | total, win rate, average, reference dates, running totals, symbol names and per-symbol totals equal their specifications |
| Statistics.RunningTotals | app/routes.py:86-94 | the loop yields the reference dates and the running totals |
| Statistics.PnlBySymbol | app/routes.py:97-103 | the loop yields each ticker once, in order of first appearance, with the sum of its trades' PnL |
| Statistics.CountsPartition | app/routes.py:80-81 | winners, losers and flat-or-unset trades partition the trades |
| Statistics.WinRateAndAverage | app/routes.py:83-84 | with no trades both figures are 0; the win rate lies in [0, 100]; the average times the count is the total PnL |
| Statistics.RefDatesAt | app/routes.py:90-91 | each reference date is the exit date when set, otherwise the entry date |
| Statistics.CumulativeRunning | app/routes.py:86-94 | running total i is the PnL of the first i + 1 trades, and the last is the total |
| Statistics.SymbolsExact | app/routes.py:97-101 | symbol names are distinct and are exactly the tickers of the trades |
| Statistics.SymbolTotalsSum | app/routes.py:97-103 | the per-symbol totals add up to the total PnL |

## Left out

- Reading files is left out: CSV reading, `pd.read_csv` and DictReader. The ledgers take rows already split into typed fields. Missing values are `Option`s, and instants are integers.
- The date, clock and number parsers (`to_datetime`, `strptime`, `float`) are left out. The multi-buy reader takes them as function parameters.
- The pandas sort by `Fill Time` (`sort_values`) is left out. The ledgers take the rows in the order the sort would give them.
- The side and status columns in test_pnl_fix.py are stripped, but then compared with `' Buy'`, `' Sell'` and `' Filled'` (with a leading space). Fills carry their side as `Buy`/`Sell`/`Other` instead. A fill whose side matches neither literal is `Other`: it only accrues commission.
- `round(…, 2)`, `strftime` date formatting and all printing are left out. Values are exact reals and dates are instants.
- Floating point is left out. Quantities and prices are exact reals, so the models say nothing about rounding error or NaN.
- Flask request and form handling, the database session and the query's `order_by` are left out. `statistics` takes the trades already in query order, and `add_trade` takes the form already converted to a `Trade`.
- The `strategy` and `notes` fields are left out. They take no part in any PnL computation.
- Whitespace stripping and case mapping cover ASCII only. Python's Unicode whitespace and case tables are not modelled.
- The multi-buy `remaining_buys.remove(buy)` removes by dict equality. The model drops by position instead. The remaining buys are sorted by time, and equal dicts have equal times, so both remove the same front buy.
- The multi-buy `buys.copy()` is shallow: the partial allocation mutates the dict that `remaining_buys` shares with `valid_buys`. This aliasing is modelled on values, as the remaining buys with the head's quantity reduced.
- DictReader's `None` cells for short rows are left out. A missing column reads as the empty string, as `row.get(key, '')` gives it.
- An uncaught `ZeroDivisionError` in the multi-buy pricing (eligible buys of zero total quantity) is modelled as the outcome `ZeroDivision` of the whole run. The interpreter's traceback is not modelled.
