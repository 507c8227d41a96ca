# iPortfolio2 core in Dafny

A model of the portfolio engine of iPortfolio2, a personal portfolio tracker.
The engine replays dated transactions into a FIFO lot ledger and reads that
ledger in several ways:

- the current holdings and the portfolio summary;
- the portfolio's value on every past day;
- the month-by-month investment history;
- the intraday and multi-day value curves.

Around the ledger sit four small services, modelled as pure functions:

- transaction validation and the per-holding price update (`app/models.py`);
- stock-split adjustment (`app/split_service.py`);
- the persistent cache of closes and daily values (`app/cache_service.py`);
- the pure parts of the price service (`app/price_service.py`).

How the model represents the source:

- `Decimal` amounts are `real`.
- Dates are day ordinals, numbered as Python's `date.toordinal` numbers them.
- Months are numbered `12 * year + (month - 1)`.
- Intraday `"HH:MM"` times are minutes since midnight. Multi-day timestamps are integers on one clock.
- Dictionaries are Dafny maps. Where the source iterates a dictionary, the model walks its keys in sorted order. Every output that depends on the order is sorted by the source itself, and every other use of the order is a sum.
- Outside inputs are parameters: today's date, the clock, split tables, quotes, previous closes, intraday bars and the market-data provider's answers.
- The two cache tables form one immutable `CacheDb` value. Each operation returns the updated value.

Modules, following the source layout:

| module | file | models |
|---|---|---|
| `Models` | models.dfy | `ActionType`, `Transaction`, `normalize_asset`, `validate_fields`, `Holding.update_with_price` |
| `Splits` | splits.dfy | `get_adjustment_factor`, `adjust_quantity`, `adjust_price` |
| `Cache` | cache.dfy | the cutoff, cacheable dates, get/save of closes and daily values, `clear_cache` |
| `Prices` | prices.dfy | `_is_crypto_symbol`, `_get_prev_close_from_series`, the merge of cached and fetched closes |
| `Ledger` | ledger.dfy | `LotInfo`, `_process_transaction` for all eight actions, `add_transactions` |
| `Valuation` | valuation.dfy | cash balance, holding days, holdings, dividend and sale summaries, the portfolio summary |
| `Replay` | replay.dfy | the date-sorted replay into a scratch ledger that the time series share |
| `History` | history.dfy | `get_historical_values` |
| `Investments` | investments.dfy | `get_investment_history` |
| `Intraday` | intraday.dfy | `get_intraday_values`, `get_multiday_intraday_values` |
| `Calendar`, `Common`, `Strings`, `Sorting` | | day ordinals and months, `Option`/`Result`, string order, the stable sort |

Behaviour the model follows as the code has it:

- **FIX is never split-adjusted.** The factor is 1 for every action other than BUY, SELL, GIFT and GAS. The comment on the FIX branch of `_process_transaction` says the target is adjusted for splits, but the factor it multiplies by is always 1 there.
- **The replay adjusts to today.** The scratch ledger of the time series still adjusts splits to today's date, not to the day being replayed.
- **SELL proceeds are uncapped.** They use the requested quantity even when fewer shares were held.
- **The cache threshold is 2 days.** Comments in `get_historical_values` and in the price service speak of 7 days.
- **Total P&L leaves dividends out.** The summary computes realized plus unrealized only, although a field comment says dividends are included.

## Model

| member | source | states |
|---|---|---|
| Models.NormalizeAssetIsUpper | app/models.py:34-38 | a normalized symbol has no lower-case ASCII letter |
| Models.NormalizeAssetIsStripped | app/models.py:34-38 | a non-empty normalized symbol neither starts nor ends with a Python whitespace character |
| Models.NormalizeAssetIsTrimmedSlice | app/models.py:34-38 | the result is the upper-cased input with exactly the leading and trailing whitespace removed (whitespace all the way through gives the empty string) |
| Models.NormalizeAssetIdempotent | app/models.py:34-38 | normalizing twice gives the same symbol as normalizing once |
| Models.NormalizeAsset | app/models.py:34-38 | never longer than its input; what it returns is pinned by NormalizeAssetIsTrimmedSlice, NormalizeAssetIsUpper, NormalizeAssetIsStripped and NormalizeAssetIdempotent |
| Models.ValidateFields | app/models.py:40-88 | a transaction is rejected exactly when it is a BUY/SELL with fewer than two of amount, quantity and price, a DIV/FEE/CASH without an amount, or a GIFT/GAS/FIX without a quantity; an accepted one keeps its identity and every given field, and only a BUY/SELL with exactly two fields, both non-zero, gains the third |
| Models.DerivedFieldConsistent | app/models.py:56-62 | a derived third field makes amount = quantity × price hold |
| Models.ValidatedNonTradeIsProcessable | app/models.py:64-86 | a validated non-trade transaction carries every field the ledger reads for its action |
| Models.ZeroAmountBuyPassesUnprocessable | app/models.py:50-62 | a BUY with amount 0 and a price passes validation yet still lacks its quantity, because derivation tests truthiness |
| Models.UpdateWithPrice | app/models.py:108-123 | market value = quantity × price and unrealized = market value − cost; percent is relative to a positive cost, otherwise 100 when the position is worth something and 0 if not; the daily change is set only against a positive previous close, and every other field is kept |
| Splits.AdjustmentFactor | app/split_service.py:60-89 | no contract of its own: the product of the in-window ratios, pinned by FactorWithoutSplitsInWindow, SingleSplitFactor, FactorComposes and FactorPositive |
| Splits.FactorWithoutSplitsInWindow | app/split_service.py:60-89 | with no split strictly after the transaction and on or before the target, the factor is 1 |
| Splits.FactorPositive | app/split_service.py:83-89 | positive split ratios give a positive factor |
| Splits.NoAdjustmentForward | app/split_service.py:83-89 | a transaction dated on or after the target is never adjusted |
| Splits.SingleSplitFactor | app/split_service.py:83-89 | a lone split contributes its ratio exactly when it falls in the window |
| Splits.FactorComposes | app/split_service.py:60-89 | for a ≤ b ≤ c the factor over (a, c] is the factor over (a, b] times the factor over (b, c] |
| Splits.AdjustPrice | app/split_service.py:112-133 | the adjusted price times a non-zero factor gives back the price, and a zero factor leaves the price unchanged |
| Splits.AdjustmentPreservesValue | app/split_service.py:91-133 | with a non-zero factor, adjusted quantity × adjusted price = quantity × price |
| Splits.QuantityAdjustmentComposes | app/split_service.py:91-110 | adjusting a quantity in two hops equals adjusting it once over the whole span |
| Splits.AdjustQuantity | app/split_service.py:91-110 | no contract of its own: the quantity times the factor, pinned by QuantityAdjustmentComposes and AdjustmentPreservesValue |
| Cache.Cutoff | app/cache_service.py:75-77 | the cutoff lies before today |
| Cache.IsCacheable | app/cache_service.py:79-88 | no contract of its own: strictly before the cutoff, which CacheableIffOlderThanThreshold restates as more than two days old |
| Cache.CacheableIffOlderThanThreshold | app/cache_service.py:79-88 | a date is cacheable exactly when it is more than two days old |
| Cache.EffectiveEnd | app/cache_service.py:132-137 | a range read ends at the requested end or at the day before the cutoff, whichever is earlier |
| Cache.GetHistoricalPrice | app/cache_service.py:92-114 | a close is returned exactly when the date is cacheable and stored, and it is the stored one |
| Cache.GetHistoricalPrices | app/cache_service.py:116-149 | the range read returns exactly the stored closes of the symbol from the start through the effective end |
| Cache.SaveHistoricalPrice | app/cache_service.py:151-178 | a save reports false and changes nothing for a date that is not cacheable; otherwise it replaces that one close and nothing else |
| Cache.CacheablePrices | app/cache_service.py:193-198 | the batch keeps exactly the cacheable dates with their closes |
| Cache.SaveHistoricalPricesBatch | app/cache_service.py:180-214 | a batch save stores exactly its cacheable closes, replacing older ones, returns how many, and touches no other symbol and no portfolio value |
| Cache.SavedPriceIsRead | app/cache_service.py:92-178 | a saved cacheable close is read back unchanged |
| Cache.BatchSavedPricesAreRead | app/cache_service.py:116-214 | every cacheable close of a batch is returned by a later range read that covers its date |
| Cache.GetPortfolioValue | app/cache_service.py:218-245 | a daily value is returned exactly when the date is cacheable and stored |
| Cache.GetPortfolioValues | app/cache_service.py:247-282 | the range read returns exactly the stored rows from the start through the effective end, and nothing when the start lies beyond it |
| Cache.SavePortfolioValue | app/cache_service.py:284-317 | a save reports false and changes nothing for a date that is not cacheable; otherwise it replaces that one row and leaves the closes alone |
| Cache.SavePortfolioValuesBatch | app/cache_service.py:319-356 | the batch returns the number of cacheable records and leaves the closes alone |
| Cache.StoreRowsLastWins | app/cache_service.py:334-350 | after the row-by-row replace, a date holds the row of the last cacheable record for it, and any other date keeps its old row |
| Cache.BatchSaveEffect | app/cache_service.py:319-356 | the whole effect of a batch save on any one date: the last cacheable record for it wins, otherwise the old row stays |
| Cache.SavedValueIsRead | app/cache_service.py:218-317 | a saved cacheable row is read back, alone and through a one-day range read |
| Cache.ClearCache | app/cache_service.py:360-367 | clearing empties both tables |
| Cache.ClearedCacheReadsNothing | app/cache_service.py:360-367 | after clearing, every read returns nothing |
| Prices.AnyBaseWithSuffixIsCrypto | app/price_service.py:222-224 | any symbol ending in -USD, -USDT, -BTC or -ETH is crypto, whatever precedes the suffix |
| Prices.CryptoNeedsDash | app/price_service.py:222-224 | a symbol containing no dash, such as a bare currency code or a stock ticker, is never crypto |
| Prices.IsCryptoSymbol | app/price_service.py:222-224 | no contract of its own: the suffix test, pinned from both sides by AnyBaseWithSuffixIsCrypto and CryptoNeedsDash |
| Prices.Present | app/price_service.py:353 | dropping missing values keeps only bars with a close |
| Prices.PrevCloseFromSeries | app/price_service.py:345-369 | the result is None exactly when no bar has a close, and otherwise the close of some bar of the series |
| Prices.PrevCloseIsLatestBeforeToday | app/price_service.py:353-369 | for an ascending series up to today, the previous close is the close of the latest bar before today |
| Prices.PrevCloseIsLastBar | app/price_service.py:357-369 | for any series, when the last bar with a close is not dated today, its close is the previous close |
| Prices.PrevCloseSkipsTodaysBar | app/price_service.py:357-365 | for any series, when the last bar with a close is dated today, the close of the bar with a close before it is used |
| Prices.PrevCloseTodaysBarAlone | app/price_service.py:357-366 | when today's bar is the only bar with a close, its close is used |
| Prices.PresentEndsAt | app/price_service.py:353 | when no bar after position i has a close, the bars kept by dropping missing values are those kept before i followed by the bar at i |
| Prices.FetchStart | app/price_service.py:181-192 | when the cache reaches back to the start, fetching begins at the later of the start and a week before the cutoff; otherwise at the start |
| Prices.HistoricalPrices | app/price_service.py:143-220 | all returned closes lie in the request; a failed fetch returns the cached closes and leaves the cache alone; otherwise the dates are the cached ones plus the fetched ones, and a fetched close overrides a cached close for the same date |
| Prices.FetchedClosesAreCached | app/price_service.py:204-206 | after a fetch, every fetched close old enough to cache is in the cache, and other symbols and the value table are untouched |
| Ledger.Deplete | app/portfolio.py:109-126 | a depletion conserves shares and cost: what is left plus what is taken equals what was there |
| Ledger.DepleteIsCapped | app/portfolio.py:113-126 | with no negative lot, a depletion takes exactly the smaller of the request and the holding (nothing for a non-positive request) and leaves no negative lot |
| Ledger.DepleteIsFifo | app/portfolio.py:113-126 | a depletion consumes a prefix of whole lots, may shrink the next lot, and keeps that lot's cost and date and every later lot |
| Ledger.DepleteNothingCostsNothing | app/portfolio.py:113-126 | a depletion that takes no shares takes no cost |
| Ledger.ApplyBuy | app/portfolio.py:90-100 | BUY appends one lot (quantity × factor, at price ÷ factor) to the end of its symbol's queue and changes nothing else |
| Ledger.ApplySell | app/portfolio.py:102-135 | SELL depletes FIFO and records a sale only when shares were taken, with the uncapped proceeds |
| Ledger.ApplyGift | app/portfolio.py:140-149 | GIFT appends one zero-cost lot and leaves the symbol's cost unchanged |
| Ledger.ApplyGas | app/portfolio.py:154-167 | GAS depletes FIFO and changes nothing else |
| Ledger.ApplyFix | app/portfolio.py:173-201 | FIX adds the shortfall as one zero-cost lot, leaves an exact match alone, or depletes the surplus FIFO |
| Ledger.Process | app/portfolio.py:74-201 | one transaction changes only its own symbol; only DIV touches dividends, only FEE the fee total, only CASH the snapshots (overwriting a same-day one), and only SELL the sales |
| Ledger.FixReachesTarget | app/portfolio.py:173-201 | FIX leaves the symbol holding exactly its unadjusted target, or nothing for a negative target |
| Ledger.SellRemovesCapped | app/portfolio.py:102-135 | SELL takes the smaller of request and holding, records a sale exactly when that is positive, and the sale's cost basis is the cost that left the queue |
| Ledger.GasRemovesCapped | app/portfolio.py:154-167 | GAS takes the smaller of request and holding and never records a sale |
| Ledger.SellConservesSharesAndCost | app/portfolio.py:102-135 | across a SELL, shares held plus shares sold, and cost held plus cost sold, are unchanged |
| Ledger.FactorIsPositive | app/portfolio.py:82-88 | with positive split ratios the factor a transaction is adjusted by is positive |
| Ledger.ProcessKeepsLotsNonNegative | app/portfolio.py:74-201 | processing a transaction with a non-negative acquisition never creates a negative lot |
| Ledger.ReplayKeepsLotsNonNegative | app/portfolio.py:61-72 | a whole replay of such transactions never creates a negative lot |
| Ledger.AddTransactions | app/portfolio.py:61-72 | adding a batch keeps the old transaction list and appends a date-ordered permutation of the batch; the lots, sales, cash, dividends and fees are those of processing that appended batch, in its stored order, from the old ledger |
| Ledger.SameDayOrderKept | app/portfolio.py:67-72 | transactions dated the same day keep their input order |
| Valuation.CashBalance | app/portfolio.py:301-324 | with no snapshot on or before the date, the balance is 0 |
| Valuation.CashBalanceIsLatestSnapshot | app/portfolio.py:318-324 | the balance is the snapshot with the latest date on or before the date asked for |
| Valuation.CashSnapshotGoverns | app/portfolio.py:169-171 | a CASH transaction sets the balance from its date until the next snapshot |
| Valuation.DaysFoldInvariant | app/portfolio.py:347-373 | the holding-days loop tracks the running quantity, keeps a period open exactly while the quantity is positive, and has recorded or open periods exactly when the position was ever open |
| Valuation.HoldingDays | app/portfolio.py:326-381 | never negative; positive exactly when the position was ever open (HoldingDaysPositiveIffEverOpen), with the period fold's invariant in DaysFoldInvariant |
| Valuation.HoldingDaysPositiveIffEverOpen | app/portfolio.py:326-381 | a symbol has holding days exactly when its position was open at some point |
| Valuation.AverageCostScales | app/portfolio.py:226 | the average cost times the quantity gives back the total cost |
| Valuation.HoldingFor | app/portfolio.py:215-258 | a symbol has a holding exactly when its lots hold a positive quantity; it carries the total shares, the total lot cost, an average cost consistent with both, a price exactly when one is quoted, a market value of shares times price and a gain of that value less the cost when priced (neither otherwise), and its holding days |
| Valuation.PriceIfKnown | app/portfolio.py:240-244 | the price update applies only when a quote exists, setting market value and unrealized P&L from it, and keeps the lot aggregates; without a quote the holding is unchanged |
| Valuation.GiftedPositionReadsHundredPercent | app/models.py:108-117 | a position made only of zero-cost lots, as GIFT creates them, reads a 100% gain once priced above zero, and all of its market value is gain |
| Valuation.HoldingsOverSound | app/portfolio.py:215-235 | every holding belongs to a listed symbol with a positive quantity and carries that symbol's totals |
| Valuation.HoldingsOverComplete | app/portfolio.py:215-235 | every listed symbol with a positive quantity has a holding |
| Valuation.HoldingsOverSorted | app/portfolio.py:299 | holdings of symbols listed in strictly ascending order come out in strictly ascending symbol order |
| Valuation.InsertBySymbol | app/portfolio.py:284-299 | placing the CASH holding adds exactly that holding |
| Valuation.InsertBySymbolSorted | app/portfolio.py:299 | the placement keeps the list sorted by symbol |
| Valuation.Holdings | app/portfolio.py:203-299 | the holdings are the investment holdings plus one CASH holding exactly when today's balance is positive |
| Valuation.HoldingsSorted | app/portfolio.py:299 | the holdings come out sorted by symbol |
| Valuation.InvestmentHoldingsAreOnePerOpenSymbol | app/portfolio.py:215-235 | a symbol has an investment holding exactly when its quantity is positive, with its total shares and cost, and no symbol appears twice |
| Valuation.InvestmentHoldings | app/portfolio.py:203-235 | no contract of its own: one holding per symbol with a positive quantity, pinned by InvestmentHoldingsAreOnePerOpenSymbol, in ascending symbol order by HoldingsOverSorted |
| Valuation.DividendSummariesOver | app/portfolio.py:383-399 | every summary is for a listed symbol with dividends, and carries the sum and the number of that symbol's payments, at least one |
| Valuation.DividendSummariesComplete | app/portfolio.py:389-397 | every listed symbol with at least one payment gets a summary |
| Valuation.DividendSummariesOverSorted | app/portfolio.py:399 | symbols listed in ascending order give summaries in ascending symbol order |
| Valuation.DividendSummaries | app/portfolio.py:383-399 | every summary is for a symbol with dividends and carries the sum and the number of its payments; the summaries come in strictly ascending symbol order, so no symbol twice |
| Valuation.DividendSummariesListEveryPayer | app/portfolio.py:383-399 | every symbol with at least one payment has a summary |
| Valuation.TotalDividends | app/portfolio.py:401-405 | the dividend total equals the sum of the totals of the per-symbol summaries |
| Valuation.TotalDividendsMatchSummaries | app/portfolio.py:383-405 | the total dividends equal the sum of the per-symbol summaries |
| Valuation.SalePnlIsProceedsLessCost | app/portfolio.py:471-476 | summing each sale's P&L equals total proceeds less total cost |
| Valuation.SoldAssetFor | app/portfolio.py:418-441 | a symbol is listed exactly when it has sales with a positive total quantity; the entry carries that symbol, and its totals, averages, P&L and P&L percent are consistent with its sales |
| Valuation.SoldAssetsOver | app/portfolio.py:417-440 | every entry is the summary of a listed symbol's own sales |
| Valuation.SoldAssetsComplete | app/portfolio.py:417-440 | every listed symbol that sold a positive quantity has an entry |
| Valuation.SoldAssetsOverSorted | app/portfolio.py:443 | symbols listed in ascending order give entries in ascending symbol order |
| Valuation.SoldAssets | app/portfolio.py:411-443 | every entry is the summary of the sales recorded for its own symbol; entries come in strictly ascending symbol order, so no symbol twice |
| Valuation.SoldAssetsListsEverySale | app/portfolio.py:417-443 | every symbol that sold a positive quantity is listed |
| Valuation.ProcessKeepsSalesPositive | app/portfolio.py:128-135 | a sale is recorded only with a positive quantity |
| Valuation.ReplayKeepsSalesPositive | app/portfolio.py:61-72 | any replay keeps every recorded sale positive |
| Valuation.RealizedMatchesSoldAssets | app/portfolio.py:411-476 | with positive sales, the realized P&L equals the sum of the sold-asset P&Ls |
| Valuation.SummaryRealizedIsSoldAssetsPnl | app/portfolio.py:470-476 | the summary's realized P&L is what the sold-asset list reports |
| Valuation.PercentOf | app/portfolio.py:488-490 | the percentage is relative to a positive base and 0 otherwise |
| Valuation.CashValue | app/portfolio.py:493 | the cash counted is the market value of the CASH holding, if there is one |
| Valuation.SummaryFrom | app/portfolio.py:454-494 | cost basis, investment market value and unrealized P&L sum the non-CASH holdings; realized P&L runs over every sale; total P&L = realized + unrealized; all-time cost = holdings cost + sold cost; the percent uses the all-time cost; total market value = investments + cash; holdings, dividend figures and fees are passed through |
| Valuation.Summary | app/portfolio.py:445-552 | no contract of its own: SummaryFrom of the ledger's holdings, sales, dividend total, fees and dividend summaries; its figures are tied to the lots and sales by SummaryTotalsFromLots, to the sold assets by SummaryRealizedIsSoldAssetsPnl, and its total value to the cash balance by TotalIsInvestmentsPlusCash |
| Valuation.RealizedIsProceedsLessSoldCost | app/portfolio.py:471-476 | realized P&L is the proceeds of every sale less the cost of the shares sold |
| Valuation.HoldingsOverTotals | app/portfolio.py:460-468 | summing the non-CASH holdings of a symbol list gives the lot cost, the priced value and the gain of the open positions among them |
| Valuation.HoldingsTotals | app/portfolio.py:454-468 | the CASH holding for the balance adds nothing to those sums |
| Valuation.SummaryTotalsFromLots | app/portfolio.py:454-476 | the summary's cost basis is the lot cost of every symbol still held; its market value and unrealized P&L add up the positions with a quote; its realized P&L is proceeds less sold cost |
| Valuation.CashValueIsBalance | app/portfolio.py:283-296 | with no position named CASH, the cash counted is the day's balance when positive, else 0 |
| Valuation.DividendLeavesPnlUnchanged | app/portfolio.py:137-138 | a dividend changes neither holdings, total P&L nor market value, and only adds to its symbol's dividends |
| Valuation.FeeOnlyAddsToFees | app/portfolio.py:151-152 | a fee only adds to the fee total |
| Valuation.TotalIsInvestmentsPlusCash | app/portfolio.py:492-494 | without a position named CASH, total market value is investment value plus the day's cash balance when positive |
| Replay.ByDate | app/portfolio.py:630 | the date sort is a permutation in ascending date order |
| Replay.CountThrough | app/portfolio.py:643 | the leading run stops at the first transaction after the day |
| Replay.CountThroughIsCutoff | app/portfolio.py:641-645 | in date order, the leading run through a day is exactly the transactions dated on or before it |
| Replay.CatchUp | app/portfolio.py:643-645 | catching up stops at the first transaction dated after the day |
| Replay.CatchUpIsReplay | app/portfolio.py:632-645 | catching up from a replayed prefix gives the ledger of a replay from scratch of exactly the transactions through the day |
| History.TradedSymbols | app/portfolio.py:601-605 | prices are fetched exactly for the symbols with a BUY, SELL, GIFT or GAS |
| History.CalcStart | app/portfolio.py:583-599 | computing starts at the later of the start and a week before the cutoff when the cache reaches back to the start, and at the start otherwise |
| History.FetchPrices | app/portfolio.py:607-618 | every traded symbol gets closes, all within the fetch window |
| History.DayValue | app/portfolio.py:647-665 | a day's cost basis is the total lot cost, its investment value is the sum over the symbols held of quantity times the latest close on or before the day (symbols without one add nothing), its cash is the balance that day, and total = investments + cash |
| History.ReferenceRows | app/portfolio.py:641-676 | the series has strictly ascending dates within the range |
| History.DayRowsMatchReference | app/portfolio.py:641-676 | the incremental day loop yields, for every day, the row of a fresh replay of exactly the transactions through that day |
| History.CachedBefore | app/portfolio.py:685-695 | only cached rows dated before the first computed day are reused, unchanged |
| History.FromDate | app/portfolio.py:697-706 | the computed rows kept are exactly those dated on or after the start |
| History.ComputedRows | app/portfolio.py:623-676 | fast-forward then day loop equals the reference series |
| History.HistoricalValues | app/portfolio.py:554-708 | with no transactions nothing is returned and the cache is unchanged; otherwise the rows are the cached rows before the first computed day followed by the reference series through the end, and the returned cache is the one the prices were fetched into with the computed rows batch-saved into it |
| History.HistoryCachesComputedRows | app/portfolio.py:678-680 | after the history is computed, every computed row old enough to be cached is read back from the returned cache |
| Cache.LastCacheableRowOfAscending | app/cache_service.py:319-356 | in records with strictly ascending dates, the row a batch save keeps for a cacheable date is the record with that date |
| History.HistoricalDatesAscending | app/portfolio.py:683-708 | the history's dates are strictly ascending, so no date appears twice |
| Investments.CategoryRule | app/portfolio.py:821-831 | every -USD pair is Crypto, table or not; a symbol is an Individual Stock exactly when it is neither in the table nor a -USD pair |
| Investments.AccumulateIsTotal | app/portfolio.py:839-863 | a month's BUY map has an entry exactly for the keys with a BUY that month, holding the sum of their amounts |
| Investments.HasBuyIsExists | app/portfolio.py:854-863 | a key has a BUY total exactly when some BUY that month has that key |
| Investments.DetailsOver | app/portfolio.py:908-912 | tooltip entries are for listed symbols with positive totals |
| Investments.DetailsOverComplete | app/portfolio.py:908-912 | every symbol with a positive total gets its entry |
| Investments.MonthRows | app/portfolio.py:884-930 | one row per month, in the months' order |
| Investments.NetInvestmentTelescopes | app/portfolio.py:899-930 | the monthly net investments add up to the change in total lot cost |
| Investments.MonthRowsAreReplays | app/portfolio.py:884-902 | each month's cost basis is the total lot cost of a replay of exactly the transactions through the month's last day |
| Investments.HistoryRows | app/portfolio.py:866-932 | the fast-forward lands on a replay of exactly the transactions before the start day |
| Investments.HistoryRowsMonths | app/portfolio.py:839-881 | one row per month with a transaction in the range, in strictly ascending order |
| Investments.HistoryRowsNet | app/portfolio.py:875-930 | the net investments add up to the last month's cost basis less the opening cost basis |
| Investments.InvestmentHistory | app/portfolio.py:812-813 | with no transactions the history is empty |
| Investments.InvestmentHistoryMonths | app/portfolio.py:815-881 | the months of the history are those of the ledger's transactions in the range, whatever their order |
| Calendar.MonthOf | app/portfolio.py:843 | a day's month starts on or before it and ends on or after it |
| Calendar.MonthOfUnique | app/portfolio.py:843 | a day lies in exactly one month |
| Calendar.MonthOfMonotone | app/portfolio.py:881 | months are ordered as their days are |
| Calendar.MonthStartStep | app/portfolio.py:886-891 | the next month starts one month's length later, across a year end too |
| Intraday.PositionsOf | app/portfolio.py:946-956 | the positions are exactly the non-CASH holdings with their quantities |
| Intraday.InitialLast | app/portfolio.py:1029 | the carried prices start as the previous closes of the held symbols |
| Intraday.BaselineIsInitialValue | app/portfolio.py:964-969 | the baseline is the value at the previous closes |
| Intraday.TallyOverRefreshes | app/portfolio.py:1045-1072 | the symbol loop refreshes each held symbol's carried price when a fresh one is offered and sums the value at the refreshed prices |
| Intraday.FirstAtFinds | app/portfolio.py:1058-1064 | the scan returns the price of the first bar at the time, or nothing when there is none |
| Intraday.LastMatchIsLast | app/portfolio.py:1160-1163 | the multi-day lookup holds the price of the last bar at each timestamp |
| Intraday.MarkerTimes | app/portfolio.py:987-1012 | the markers are midnight, 09:30, 16:00, now, and interval steps between 16:00 and now |
| Intraday.AllTimes | app/portfolio.py:976-1012 | every bar time is a time point |
| Intraday.IsLastPointIff | app/portfolio.py:1043 | in ascending times, checking only the next time finds the last time not after now |
| Intraday.ChangesOver | app/portfolio.py:1080-1095 | a mover is listed only with a carried price and a positive previous close, both reported |
| Intraday.FirstLargestIsLargest | app/portfolio.py:1097-1098 | the chosen mover moved at least as much as every change and more than every earlier one |
| Intraday.TopMovers | app/portfolio.py:1106 | the tooltip lists ten movers, or all of them when fewer |
| Intraday.LargestFromInput | app/portfolio.py:1097-1106 | the movers listed are taken from the changes |
| Intraday.LargestDescending | app/portfolio.py:1097-1106 | the movers come largest first |
| Intraday.LargestDominates | app/portfolio.py:1097-1106 | every change left out moved no more than any mover listed |
| Intraday.MakePoint | app/portfolio.py:1074-1107 | a point's daily P&L is value − baseline, its percent is relative to a positive baseline and 0 otherwise, and at most ten movers are listed |
| Intraday.Emit | app/portfolio.py:1074 | a point is emitted exactly when some symbol has a price and the value is positive |
| Intraday.CurveIsReference | app/portfolio.py:1027-1107 | the time loop computes the reference curve, where each symbol is priced by its latest bar at or before the time, else its previous close, with real-time quotes at the last point |
| Intraday.IntradayValues | app/portfolio.py:934-1110 | no contract of its own: the time-point curve of the ledger's non-CASH positions, equal to the reference curve by IntradayIsReference |
| Intraday.IntradayIsReference | app/portfolio.py:934-1110 | the one-day curve of the ledger's positions is the reference curve |
| Intraday.StampCurveIsReference | app/portfolio.py:1166-1196 | the timestamp loop computes the reference multi-day curve, where each symbol is priced by its latest bar at or before the timestamp, else its previous close |
| Intraday.MultidayValues | app/portfolio.py:1112-1196 | no contract of its own: the timestamp curve of the ledger's non-CASH positions, equal to the reference curve by MultidayIsReference |
| Intraday.MultidayIsReference | app/portfolio.py:1112-1196 | the multi-day curve of the ledger's positions is the reference curve |
| Sorting.StableSortBy | app/portfolio.py:68 | the sort is a permutation ordered by key |
| Sorting.StableSortIsStable | app/portfolio.py:68 | elements with equal keys keep their input order |

## Left out

- Market data, SQLite and caches:
  - All yfinance calls are left out, because they are network I/O. Their answers enter as parameters: the split table per symbol, current quotes, previous closes, intraday bars and historical closes.
  - `get_splits`, `get_splits_for_symbols` and the split TTL cache are left out.
  - The crypto EST-midnight lookups in `price_service.py` are left out.
  - `get_current_price`, `get_prices_batch` and `get_intraday_prices_batch` are left out.
  - SQLite connections, `init_db`, `get_cache_stats` and its file size are left out, because they are storage I/O. The tables are maps.
  - All in-memory TTL caches are left out, because they are keyed on the wall clock.
- Prices.HistoricalPrices: does not model the early return from the in-memory copy for a fully cached range. That copy is one of the TTL caches.
- Prices.HistoricalPrices: clips the provider's answer to the dates from the fetch start through the end. The source relies on yfinance honouring its `start`/`end` arguments, so "every returned close is dated inside the request" is a property of the model's window, not a check the source makes.
- Outputs and arithmetic:
  - The per-lot CAGR and weighted annualized return in `get_holdings` and `get_portfolio_summary` are left out, because they use `math.pow` on floats.
  - `get_daily_pnl_history` is left out, because it differences float values.
  - All `float(...)` output conversions, `isoformat` strings and logging are left out.
  - Decimal's 28-significant-digit rounding of division is not modelled. Amounts are exact reals.
- Valuation.HoldingFor: the annualized return is set as in the source, but no property about it is stated beyond its presence.
- Valuation.SummaryFrom: has no weighted annualized return (see CAGR above).
- Models.Upper: upper-cases ASCII letters only. Python's `str.upper` also maps other Unicode letters, and can change a string's length.
- Intraday.IntradayValues: takes the interval as a whole number of minutes. It does not parse the `"5m"` string, whose default on a non-`m` suffix is 5. Times are minutes of the day rather than `"HH:MM"` strings, which order the same way.
- Intraday.TopMovers: the source sorts on `abs(float(pnl))`. The model orders exact reals. It is written as repeated selection of the first largest change, which matches a stable descending sort cut to ten.
- Investments.InvestmentHistory:
  - Months are numbers, not `"%Y-%m"` keys.
  - The category map is not reordered by absolute amount, because a map has no order.
  - BUY amounts are kept as reals rather than floats.
- Splits.AdjustmentFactor: the split table is a sequence of (date, ratio) pairs. The source's table is keyed by date, so the model also admits tables the source cannot hold.
- The ledger requires every transaction to carry the fields its action reads (`Models.Processable`). In the source a missing field raises `TypeError` inside `_process_transaction`. That failure is not modelled as a result value.
- Reading transactions from CSV, the HTTP API and the screenshot script are outside the modelled core.
