# Bybit trade analysis — position reconstruction and PnL, in Dafny

This project models the accounting core of a small Bybit trade dashboard.
The dashboard downloads a derivatives account's execution history
(individual fills), rebuilds positions per symbol, and cuts them into
closed trades, each with entry and exit time, average entry price, entry
cost, net PnL after fees, ROI and an exit classification. It then rolls
the trades up into KPIs and per-symbol and per-exit-type tables.

The repository computes closed trades in two independent ways. Both are
modelled, each as its own pure fold over a sequence of fills, and they are
deliberately not reconciled.

- **Weighted-average accounting** (`analyze_bybit_trades_v2`, module
  `WeightedLedger`). Each symbol has one running position: signed quantity,
  signed cost and the entry fees not yet charged. The steps are:
  - A fill against the position closes at most the open quantity.
  - The closed slice carries its proportional share of the entry fees.
  - The remainder keeps the old average price.
  - A residue below 1e-9 resets the position to flat.
  - A fill larger than the position crosses zero. The residue becomes an
    opposite-side position at the *old* average price, with the old entry
    time and no fees. This is modelled exactly as written
    (`WeightedLedgerFacts.FlipKeepsOldPrice`).
- **List-of-entries accounting** (`analyze_data`, module `EntryListLedger`).
  Each symbol keeps the side of its first fill and the list of same-side
  fills. The first opposite fill closes its *whole* quantity, with no cap,
  against the entries' weighted average. It charges *every* entry fee to
  that trade, and the symbol's position is then forgotten.
- **Rollups** (modules `Rollup`, `Dashboard`, `TradeReport`):
  - The dashboard's headline KPIs: total PnL, win rate and mean ROI.
  - Its per-symbol table (PnL total, ROI *sum*, trade count), split into
    winners and losers.
  - Its per-exit-type table.
  - The per-symbol and per-exit-type summaries written after the
    weighted-average analysis.

Modules:
- `Fills`: the execution row, numeric coercion, and the `Trade` filter.
- `WeightedLedger` and `WeightedLedgerFacts`: the weighted-average fold and
  its properties.
- `EntryListLedger` and `EntryListLedgerFacts`: the list-of-entries fold and
  its properties.
- `Rollup`: totals, group-by and ordering, shared by both reports.
- `Dashboard`: the dashboard's figures.
- `TradeReport`: the weighted-average analysis' summaries.
- `CrossCheck`: the one case where the two folds agree.

Modelling choices:
- Quantities, prices and fees are `real`.
- Times are `int` epoch milliseconds.
- A numeric cell that fails to parse is `None`.
- A missing text cell (pandas NaN) is `None`.

## Model

| member | source | states |
|---|---|---|
| `Fills.SignedQty` | analyze_trades.py:41 | A buy counts positive and a sell negative, with the fill's magnitude. |
| `Fills.Coerce` | analysis.py:12-17 | A row yields a fill exactly when quantity, price and fee all parse. Every other column is then kept unchanged. |
| `Fills.Normalize` | analysis.py:14-17 | Rows whose numbers do not parse are dropped. Every row that parses survives, and nothing else appears. |
| `Fills.NormalizeAppend` | analysis.py:17 | Dropping unparseable rows keeps order and multiplicity: it distributes over concatenation. |
| `Fills.NormalizeOne` | analysis.py:17 | A single row survives, as its parsed fill, exactly when its numbers parse. |
| `Fills.TradesOnly` | analyze_trades.py:24 | Exactly the rows whose execution type is `Trade` are kept. |
| `Fills.TradesOnlyAppend` | analyze_trades.py:24 | The `Trade` mask keeps order and multiplicity: it distributes over concatenation. |
| `Fills.TradesOnlyOne` | analyze_trades.py:24 | A single row is kept exactly when its execution type is `Trade`. |
| `WeightedLedger.Open` | analyze_trades.py:44-49 | Opening from flat: the position has the fill's size and direction, its average price is the fill price, and it carries the fill's fee and time. |
| `WeightedLedger.Extend` | analyze_trades.py:51-55 | A same-direction fill grows the exposure by its size and accumulates its fee. The new average price is the quantity-weighted mean of the old average and the fill price. |
| `WeightedLedger.WeightedMeanStep` | analyze_trades.py:52-53 | Adding same-signed quantity to cost and quantity moves cost/quantity to the weighted mean. |
| `WeightedLedger.Roi` | analyze_trades.py:79 | ROI is pnl/basis·100 when the basis is positive, and 0 otherwise. |
| `WeightedLedger.Settle` | analyze_trades.py:58-79 | The closed quantity is the smaller of the exposure and the fill size. Entry cost is \|avg·closed\|. The entry-fee share is proportional to the closed part of the exposure. Net is gross minus that share and the closing fee. ROI is net over entry cost. |
| `WeightedLedger.Remainder` | analyze_trades.py:101-111 | A residue below 1e-9 is flat. Otherwise the position holds old quantity plus signed fill at the settled average price, with the charged fee share removed and the entry time kept. |
| `WeightedLedger.Record` | analyze_trades.py:84-98 | The record's fields: symbol, exit time and price from the fill, entry time from the position, `Long` iff the pre-fill quantity is positive, the settled quantity, \|avg\|, cost, net PnL and ROI, `Lucro` iff net PnL > 0, the exit type and the order link id. |
| `WeightedLedger.ExitType` | analyze_trades.py:82 | The stop-order type, unless it is missing or `UNKNOWN`; otherwise the creation type. |
| `WeightedLedger.Apply` | analyze_trades.py:43-111 | A record is emitted exactly when the position is open and the fill goes against it. The record carries the fill's symbol, time and price, the pre-fill entry time, a quantity no larger than exposure or fill, the side from the pre-fill sign, and `Lucro` iff net PnL > 0. Its quantity, entry cost, net PnL and ROI are those of `Settle`, its average price is \|cost/qty\|, and its exit type is `ExitType` of the fill. An open position always knows its entry time. From flat the new position is `Open` of the fill, and an extending fill gives `Extend`. A closing fill leaves `Remainder` and emits `Record`, both of that fill's `Settle`. |
| `WeightedLedger.Step` | analyze_trades.py:31-111 | A non-trade row changes nothing. A trade row puts `Apply`'s new position under its own symbol and emits `Apply`'s record, if any. It emits at most one record, closed by that fill, and touches no other symbol. |
| `WeightedLedger.Run` | analyze_trades.py:31-111 | The fold emits at most one record per fill, and each record is traceable to a fill of its symbol at its exit time and price. |
| `WeightedLedger.AnalyzeTrades` | analyze_trades.py:24-111 | The closed trades of the whole feed: at most one per fill, each closed by a fill of the feed. |
| `WeightedLedgerFacts.RunSnoc` | analyze_trades.py:31-111 | Extending the feed by one fill appends exactly what `Step` emits for it against the positions left so far, and the positions become `Step`'s. |
| `WeightedLedgerFacts.AnalyzeTradesStep` | analyze_trades.py:31-98 | The trades of a feed plus one fill are the feed's trades followed by what that fill closes. |
| `WeightedLedgerFacts.GrossPnlIsNotionalDifference` | analyze_trades.py:64-70 | Gross PnL is exit notional minus entry notional for a long, and the reverse for a short. |
| `WeightedLedgerFacts.EntryFeesConserved` | analyze_trades.py:73-103 | The fee share charged plus the fees left on the position equals the pre-fill fees. Closing the whole exposure charges them all and leaves none. |
| `WeightedLedgerFacts.CloseKeepsAveragePrice` | analyze_trades.py:101-111 | A residue below 1e-9 resets to flat. Otherwise the position holds old quantity plus signed fill at the unchanged average price. |
| `WeightedLedgerFacts.PartialCloseReducesExposure` | analyze_trades.py:58-111 | A fill smaller than the exposure closes exactly its own size. The side and entry time are kept, and exposure drops by the closed amount. |
| `WeightedLedgerFacts.FlipKeepsOldPrice` | analyze_trades.py:101-103 | An oversized opposite fill closes the whole exposure. The residue is on the other side, sized fill minus exposure, at the old average price, with the old entry time and zero fees. |
| `WeightedLedgerFacts.NonTradeRowsIgnored` | analyze_trades.py:24-31 | Folding only the trade rows gives the same trades and positions as folding all rows. |
| `WeightedLedgerFacts.StepIsLocal` | analyze_trades.py:32-38 | A row only reads and writes its own symbol's position. |
| `WeightedLedgerFacts.ExcludedSymbolsAreIndependent` | analyze_trades.py:26-38 | From ledgers that agree outside some symbols, folding without those symbols' fills gives exactly the other symbols' trades, and the ledgers still agree. |
| `WeightedLedgerFacts.ExcludingSymbolsCommutes` | analyze_trades.py:26-38 | Analysing without some symbols equals analysing everything and dropping their trades. |
| `WeightedLedgerFacts.EntryPrecedesExit` | analyze_trades.py:48-88 | With each symbol's fills in time order, every trade's entry time is no later than its exit time. |
| `EntryListLedger.AvgEntryPrice` | analysis.py:45-48 | When the entry quantity is positive, average·Σqty = Σprice·qty; otherwise the average is 0. |
| `EntryListLedger.ExitType` | analysis.py:62-70 | A stop-order type that is present, non-empty and not `UNKNOWN` wins. Otherwise the result is `Parcial` iff the order was user-created, else `Desconhecido`. |
| `EntryListLedger.Close` | analysis.py:43-84 | The record has the fill's symbol and the `ExitType` of the fill. The whole fill quantity is closed at the entries' average price. Entry cost is avg·qty. PnL is the price move times the quantity, negated for a short. All entry fees plus the closing fee are charged. ROI is net over cost, or 0. Entry time is the first entry's time. |
| `EntryListLedger.Step` | analysis.py:25-86 | A non-trade row changes nothing. A new symbol opens on the fill's side. A same-side fill is appended. An opposite fill emits one `Close` and removes the symbol. Other symbols are untouched. |
| `EntryListLedger.Run` | analysis.py:25-86 | At most one trade per fill, each closed by a fill of the feed with that fill's symbol, time, price and whole quantity. Every position left open is well formed. |
| `EntryListLedger.Analyze` | analysis.py:8-91 | An empty feed yields no trades, and there are never more trades than rows. |
| `EntryListLedgerFacts.RunSnoc` | analysis.py:25-86 | Extending the feed by one fill appends exactly what `Step` emits for it against the positions left so far. |
| `EntryListLedgerFacts.AnalyzeStep` | analysis.py:14-91 | On any feed, the first row included, an extra row adds nothing when its numbers do not parse, and otherwise adds what its fill closes. |
| `EntryListLedgerFacts.AverageWithinEntryPrices` | analysis.py:45-48 | With positive entry quantities, the average entry price lies between the lowest and highest entry price. |
| `EntryListLedgerFacts.NonTradeRowsIgnored` | analysis.py:29-30 | Folding only the trade rows gives the same result as folding all rows. |
| `EntryListLedgerFacts.StepIsLocal` | analysis.py:32-86 | A row only reads and writes its own symbol's position. |
| `EntryListLedgerFacts.ExcludedSymbolsAreIndependent` | analysis.py:22-86 | Folding without some symbols' fills gives exactly the other symbols' trades of the full fold. |
| `EntryListLedgerFacts.ExcludingSymbolsCommutes` | analysis.py:22-86 | Analysing without some symbols equals analysing everything and dropping their trades. |
| `EntryListLedgerFacts.EntryPrecedesExit` | analysis.py:75-76 | With each symbol's fills in time order, entry time ≤ exit time for every trade. |
| `EntryListLedgerFacts.OneSidedFeedClosesNothing` | analysis.py:32-41 | A feed where no symbol ever trades on both sides closes no trade, and the result is simply empty. |
| `EntryListLedgerFacts.ExitTypeAsWritten` | analysis.py:62-64 | As written, a missing stop-order type leaves the trade without an exit type. A present one is classified like `ExitType`. |
| `EntryListLedgerFacts.MissingStopTypeLosesExitType` | analysis.py:62-68 | A user-created close with a missing stop-order type gets no exit type as written, where `Parcial` is meant. |
| `Rollup.WinRate` | app.py:42 | The win rate is the winning share of trades as a percentage, between 0 and 100, and 0 for no trades. |
| `Rollup.MeanRoi` | app.py:43 | Mean ROI times the count is the ROI sum, and 0 for no trades. |
| `Rollup.GroupBy` | app.py:46-48 | One group per distinct key, none empty, every row's key present. Each group holds that key's sums and counts. |
| `Rollup.GroupByCoversAllRows` | app.py:46-48 | Group counts add up to the number of rows, and group PnL totals to the overall PnL. |
| `Rollup.Summarize` | app.py:53-54 | A summary line holds the PnL sum, mean ROI, win percentage (0-100) and count of its group. |
| `Rollup.SummaryLinesAddUp` | analyze_trades.py:127-131 | The summary lines' counts add up to the number of trades, and their PnL totals to the total PnL. |
| `Rollup.SortByPnl` | app.py:50-57 | The output is a permutation of the input, ordered by PnL total, descending or ascending. |
| `Dashboard.Headline` | app.py:41-44 | Total PnL is the sum of net PnL. The win rate is the percentage of trades with net PnL > 0. Average ROI is the mean ROI. Both are 0 with no trades. |
| `Dashboard.SymbolTable` | app.py:46-48 | One line per symbol group, holding the group's PnL sum, ROI sum and trade count. |
| `Dashboard.Winners` | app.py:50 | Exactly the symbol lines with PnL total ≥ 0, sorted descending. |
| `Dashboard.Losers` | app.py:51 | Exactly the symbol lines with PnL total < 0, sorted ascending. |
| `Dashboard.WinnersAndLosersPartition` | app.py:50-51 | Winners (total ≥ 0, descending) and losers (total < 0, ascending) together are exactly the symbol table. |
| `Dashboard.SymbolTableAddsUp` | app.py:46-51 | Per-symbol trade counts add up to the number of trades, and PnL totals to the headline total; winners plus losers cover every trade. |
| `Dashboard.ExitTableAddsUp` | app.py:53-57 | Exit-type counts add up to the number of trades, and PnL totals to the headline total. |
| `Dashboard.ExitTable` | app.py:53-57 | The per-exit-type lines, sorted by PnL total descending, as a permutation of the group summaries. |
| `Dashboard.Build` | app.py:36-57 | There is no report exactly when there are no trades. Otherwise the report holds the headline and the exit table. Winners (all ≥ 0, descending) and losers (all < 0, ascending) together are exactly the symbol table. |
| `Dashboard.DashboardFor` | app.py:34-38 | An empty feed, or one that closes nothing, gives no report. |
| `TradeReport.ExitRows` | analyze_trades.py:137 | Exactly the trades that have an exit type enter the exit-type group-by, keyed by it: one row per such trade, with their net PnL in total. |
| `TradeReport.ExitRowsAppend` | analyze_trades.py:137 | Keying trades by exit type distributes over concatenation, so rows keep the trades' order and multiplicity. |
| `TradeReport.ExitRowsOne` | analyze_trades.py:137 | A single trade gives one row keyed by its exit type when it has one, and no row otherwise. |
| `TradeReport.Build` | analyze_trades.py:115-142 | There is no report exactly when no trade closed. Otherwise both summaries are sorted by PnL total descending and are permutations of the group summaries. |
| `TradeReport.SymbolSummaryAddsUp` | analyze_trades.py:127-132 | The per-symbol summary's counts add up to the number of trades, and its PnL totals to the total net PnL. |
| `TradeReport.ExitSummaryAddsUp` | analyze_trades.py:137-142 | The exit-type summary's counts add up to the number of trades with an exit type, and its PnL totals to their net PnL. |
| `CrossCheck.RoundTripAgrees` | analysis.py:43-59 | For one opening fill and an equal-size opposite fill, both folds close one trade with the same quantity, average price, entry cost, net PnL, ROI and times. |

## Left out

Behaviour of the code that the model keeps as written:
- Neither fold looks at `orderLinkId` when classifying the exit.
- A weighted-average flip keeps the residue at the old average price, with the old entry time (analyze_trades.py:101-102).
- The list-of-entries fold never caps a close: an oversized opposite fill closes its whole quantity, and the excess is forgotten with the position (analysis.py:43, 86).

Not modelled:
- Fetching executions is not modelled: credentials, the HTTP session, cursor pagination, 7-day windows, rate-limit sleeps and CSV files (get_trades.py, bybit_client.py). These are network and file I/O over a third-party client.
- Collateral settings (bybit_config.py) are not modelled; they are thin wrappers over API calls.
- Flask routing, form handling, flash messages and template rendering in app.py are not modelled, and neither is the printing and `nlargest`/`nsmallest` display in analyze_trades.py.
- Input ordering is not modelled. The weighted-average analysis sorts by execution time, and `analyze_data` sorts by symbol and then time. Both folds take fills in the order given; the ordering lemmas assume `OrderedPerSymbol`, which either sort guarantees.
- Group order is first appearance of the key, where pandas sorts group keys. Only the order of lines with equal PnL totals after the sort can differ, and pandas' default sort is not stable either.
- Floating point is not modelled: quantities, prices and fees are exact reals. Rounding, NaN arithmetic and the `%.4f` output formatting are left out.
- NaN numeric rows are not modelled for the weighted-average analysis, which coerces numbers but never drops unparseable rows. Its fold takes fills whose numbers parsed.
- Sides are `Buy` or `Sell` only. The source treats any non-`Buy` side as a sell when signing quantities; the venue emits only these two.
- EntryListLedger.Analyze: its own contract states only the empty-feed case and a count bound. Its contents follow from `Step` through `EntryListLedgerFacts.AnalyzeStep`.
- WeightedLedger.AnalyzeTrades: its own contract gives only a count bound and provenance. What each fill adds is stated by `WeightedLedgerFacts.AnalyzeTradesStep` through the contracts of `Step` and `Apply`.
- WeightedLedger.Run: its contract gives provenance and a count bound only. The per-fill behaviour is stated on `Step` and `Apply`, and `WeightedLedgerFacts.RunSnoc` ties the fold to them one fill at a time.
- EntryListLedger.Close: it classifies the exit with the corrected `ExitType`. For a missing `stopOrderType`, the fold, `Analyze` and `DashboardFor` therefore give `Parcial` or `Desconhecido`, where analysis.py:62-64 keeps the NaN and the trade then drops out of the exit-type table (see Findings).
- `entry_count` in the weighted-average position is kept but never read, and no property is stated about it.

## Findings

| source | as written | input that shows it | evidently intended | confidence | as-written member | corrected member |
|---|---|---|---|---|---|---|
| analysis.py:62-70 | `if exit_type and …` tests a missing stop-order cell, which pandas gives as NaN. NaN is truthy and not in `['UNKNOWN', '']`, so the NaN is kept as the exit type. The dashboard's exit-type group-by then drops the trade. | A user-created closing fill whose `stopOrderType` cell is missing. | A missing stop-order type falls through to `Parcial` (user-created) or `Desconhecido`. | medium — not executed; it depends on the feed leaving the cell empty | `EntryListLedgerFacts.ExitTypeAsWritten` (shown by `EntryListLedgerFacts.MissingStopTypeLosesExitType`) | `EntryListLedger.ExitType`, used by `EntryListLedger.Close`; `Dashboard.ExitTableAddsUp` proves every trade reaches the exit table |
