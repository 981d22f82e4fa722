# Spread backtest and treasury construction, modelled in Dafny

This project models two pure data transforms from the whip treasury-risk backend.

**The spread backtest** (`backend/app/spread/actions.py`) takes a balance table: one
value time series per token symbol. It then:

- sums every series' value at `start`, reading a series without that date as 0;
- scales every series by `(100 - p) / 100`;
- writes a reserve series under the reserve token's symbol. On every day of
  `[start, end]` that series holds `p` percent of the initial total. If the table
  already had a reserve series, it is outer-joined and summed with the resized old one.

A treasury's assets are then reconciled with the new table. Each asset's balance becomes
its series' value at `end`. The reserve token is appended as a new asset when no asset
carries its symbol.

**Treasury construction** (`get_treasury` in `backend/app/libs/covalent/treasury.py`)
turns an already-fetched Covalent portfolio into a treasury:

- one price window per portfolio item;
- an asset list holding only the items whose first close quote is nonzero and whose
  contract address is whitelisted.

The modules are:

- `Wrappers`: `Option` and `Result`.
- `Types`: the records the core passes around (`ERC20`, `HistoricalPrice`, `Quote`,
  `Treasury`).
- `Series`: a time series is a finite map from an integer day to a `real`. The module
  spells out the pandas operations the transform uses: scaling, adding a scalar, the
  zero series over a date range, and `add(..., fill_value=0)`.
- `SpreadActions`: the spread transform and reconciliation.
- `CovalentTreasury`: `get_treasury`.

Lookups that raise `KeyError` in the source return `Result.Failure`. `get_asset` raising
`StopIteration` is an `Option`. The sum over the balance table is a ghost function that
takes the keys in an arbitrary order. `TotalOverRemove` shows that the order does not
matter. `InitialTotalBalance` is the executable loop computing it.

Products with a variable factor are written `Times(x, f)` (`Series.Times`, which is
`x * f`). Proofs about the shape of series and tables can then hide the product and
stay in linear arithmetic.

## Model

| member | source | states |
|---|---|---|
| SpreadActions.ResizeBalances | backend/app/spread/actions.py:23-29 | the resized table has exactly the input's symbols and, per symbol, exactly the input's dates; each value is the input value times (100 - p) / 100 |
| SpreadActions.ResizeZeroPercent | backend/app/spread/actions.py:27-29 | with p = 0 resizing returns the input table unchanged |
| SpreadActions.ResizeFullPercent | backend/app/spread/actions.py:27-29 | with p = 100 every resized value is 0, on the same symbols and dates |
| SpreadActions.TotalOverScale | backend/app/spread/actions.py:29 | scaling every series by a factor scales the table's total at any date by that factor |
| SpreadActions.InitialTotalBalance | backend/app/spread/actions.py:39-45 | the loop over the table's series returns the sum of every series' value at `start`, a series without `start` counting 0 |
| SpreadActions.TotalOverRemove | backend/app/spread/actions.py:45 | the total does not depend on the order the series are visited: any series can be taken out first |
| SpreadActions.TotalOverFrame | backend/app/spread/actions.py:39-45 | the total at a date depends only on each series' value at that date |
| SpreadActions.TotalOverProportional | backend/app/spread/actions.py:45-46 | if each series' value at a date is f times another table's, the totals are in the same proportion |
| SpreadActions.ReserveSeries | backend/app/spread/actions.py:47-57 | the reserve series covers [start, end] plus the dates of the resized old reserve, if any; each date holds the share (0 outside [start, end]) plus the old value (0 where it has none) |
| SpreadActions.UpdateBalancesWithSpread | backend/app/spread/actions.py:32-59 | the result's symbols are the input's plus the reserve symbol; every other symbol maps to its input series resized |
| SpreadActions.SpreadReserveWhenAbsent | backend/app/spread/actions.py:45-58 | with no prior reserve series, the reserve series has exactly the dates of [start, end], each holding p percent of the initial total |
| SpreadActions.SpreadReserveWhenPresent | backend/app/spread/actions.py:54-58 | with a prior reserve series, the new one covers the union of both date sets; each day holds the share (0 outside [start, end]) plus the resized old value (0 where the old series has none) |
| SpreadActions.ResizedRestTotal | backend/app/spread/actions.py:46-58 | the non-reserve series of the result total, at `start`, the input's non-reserve total times the resize factor |
| SpreadActions.ConservationArithmetic | backend/app/spread/actions.py:27-50 | p percent of the total, plus the resized reserve and resized rest, adds back up to the total |
| SpreadActions.SpreadConservesStartTotal | backend/app/spread/actions.py:39-58 | when start <= end, the table's total at `start` is the same before and after the transform |
| SpreadActions.SpreadZeroPercent | backend/app/spread/actions.py:27-58 | with p = 0 every non-reserve series is unchanged, and the reserve series holds the old reserve value (0 where there was none) on every date |
| SpreadActions.SpreadFullPercent | backend/app/spread/actions.py:27-58 | with p = 100 every non-reserve value is 0, and the reserve holds the whole initial total on every day of [start, end] |
| SpreadActions.TwoTokenScenario | backend/app/spread/actions.py:39-59 | two tokens worth 10 each with p = 20: each token is worth 8 at `start`, the reserve holds 4, and the total stays 20 |
| SpreadActions.BalanceAt | backend/app/spread/actions.py:71 | the lookup succeeds iff the symbol has a series containing `end` and then returns that value; a missing symbol is reported as such |
| SpreadActions.UpdateAssetBalances | backend/app/spread/actions.py:70-71 | succeeds iff every asset's symbol has a series observed at `end`; then the asset list keeps its length and order, and each asset's balance is that series' value at `end` |
| SpreadActions.GetAsset | backend/app/spread/actions.py:72-74 | none iff no asset carries the symbol; otherwise the first asset that carries it |
| SpreadActions.UpdateTreasuryAssetsWithSpreadBalances | backend/app/spread/actions.py:62-83 | succeeds iff every asset is observed at `end` and either an asset carries the reserve symbol or its series is observed; address and windows are unchanged; each asset gets its balance at `end`; the reserve asset is appended exactly when missing; if every asset is observed, the error names the reserve symbol |
| SpreadActions.ReconcileAfterSpread | backend/app/spread/actions.py:32-83 | after the transform with start <= end, reconciliation succeeds when every non-reserve asset is observed at `end`; each such asset gets its resized value and the reserve asset gets the share plus its resized old value |
| Series.Zeroes | backend/app/spread/actions.py:47 | the zero series has exactly the days of the inclusive range [start, end], each 0 |
| Series.AddScalar | backend/app/spread/actions.py:48-50 | adding a scalar keeps the dates and shifts every value by it |
| Series.AddFill0 | backend/app/spread/actions.py:55-57 | the outer-join sum covers the union of the dates; each value is the sum of both sides, a missing side counting 0 |
| Series.Scale | backend/app/spread/actions.py:29 | scaling a series keeps its dates and multiplies every value |
| CovalentTreasury.MakeQuotes | backend/app/libs/covalent/treasury.py:74-80 | one quote per holding, in order, carrying the holding's timestamp and quote rate |
| CovalentTreasury.MakeWindows | backend/app/libs/covalent/treasury.py:67-82 | one window per item, in item order, copying address, name and ticker symbol, with a quote list that matches the holdings one to one |
| CovalentTreasury.KeepItems | backend/app/libs/covalent/treasury.py:87-98 | an item is among the kept ones iff it is in the input and passes the filter; never more items than the input |
| CovalentTreasury.RetainedIndicesAscend | backend/app/libs/covalent/treasury.py:94 | the retained positions lie inside the item list and ascend strictly |
| CovalentTreasury.RetainedIndicesExact | backend/app/libs/covalent/treasury.py:94-97 | a position is among the retained ones iff its item passes the filter |
| CovalentTreasury.KeepItemsAtIndices | backend/app/libs/covalent/treasury.py:87-98 | there are as many kept items as retained positions, and the j-th kept item is the item at the j-th retained position |
| CovalentTreasury.KeepItemsSelects | backend/app/libs/covalent/treasury.py:87-98 | the kept items are the order-preserving selection of exactly the positions whose item passes the filter |
| CovalentTreasury.KeepItemsIdempotent | backend/app/libs/covalent/treasury.py:94-97 | filtering the filtered list with the same whitelist changes nothing |
| CovalentTreasury.KeepItemsAppend | backend/app/libs/covalent/treasury.py:94-97 | filtering a concatenation is the concatenation of the filtered parts |
| CovalentTreasury.FilterAssets | backend/app/libs/covalent/treasury.py:87-98 | every asset's address is whitelisted and its balance is nonzero; never more assets than items |
| CovalentTreasury.GetTreasury | backend/app/libs/covalent/treasury.py:65-100 | the treasury's address is the portfolio's; there is one window per item, built from it |
| CovalentTreasury.GetTreasuryAssets | backend/app/libs/covalent/treasury.py:87-98 | the j-th asset is the item at the j-th retained position, with the first holding's close quote as balance; positions ascend; a position is retained iff its item passes the filter |
| CovalentTreasury.AssetsHaveWindows | backend/app/libs/covalent/treasury.py:67-98 | every asset's address is the address of some window |
| CovalentTreasury.FilterAssetsAsWritten | backend/app/libs/covalent/treasury.py:87-98 | the comprehension as evaluated: it fails iff some item has no holdings, and the error names the first such item |
| CovalentTreasury.GetTreasuryAsWritten | backend/app/libs/covalent/treasury.py:65-100 | fails iff some item has no holdings, naming an item without holdings |
| CovalentTreasury.GetTreasuryAsWrittenAgrees | backend/app/libs/covalent/treasury.py:87-98 | where every item has a holding, the code as written builds the same treasury as the corrected construction |
| CovalentTreasury.EmptyHoldingsCounterexample | backend/app/libs/covalent/treasury.py:92-97 | a whitelisted item without holdings makes the code as written fail, while the corrected construction drops it |

## Left out

- `_get_treasury_portfolio` and `get_treasury_portfolio`: network I/O, caching, environment keys and logging. The portfolio arrives as a typed `Portfolio` value.
- `build_spread_treasury_with_assets`: async orchestration of collaborators whose code is not part of this model.
- `make_zeroes` (module `app.spread.helpers`) is not part of this model. `Series.Zeroes` states what the transform relies on: a zero on each day of the inclusive range.
- The `Treasury`, `ERC20`, `HistoricalPrice`, `Quote` and `Balances` classes (modules `app.treasury` and `app.libs.types`) are not part of this model. Their fields are taken in the positional order the core uses. `get_asset` is taken to return the first asset with the symbol and to raise `StopIteration` when there is none.
- Floating-point rounding: all arithmetic is exact `real` arithmetic.
- Dates and timestamps are integer day indices. `dateutil` parsing and the date strings `start`/`end` are not modelled.
- The float instantiation of `_resize_balances` (its `Balanceish` type also admits plain floats) is not modelled separately. The series case covers the core's use.
- The `name` label set on the reserve series (lines 51-53) has no effect on values and is not modelled.
- A `None` close quote (falsy in Python) is not modelled: the close quote is a `real`, so only a zero quote fails the truthiness test.
- The empty `{}` portfolio the fetch layer returns on failure is not modelled. `get_treasury` indexes `portfolio["items"]`, so it would raise `KeyError` on that value. It does not build an empty treasury, as the fetch layer's degraded-result policy describes; the model follows the code.
- `UpdateTreasuryAssetsWithSpreadBalances`: the source mutates the treasury's assets in place. When a lookup raises partway through, the earlier assets keep their new balances. The model returns only the error and does not describe the partly updated treasury.
- `SpreadActions.TotalAt`: duplicate dates in a pandas index (where `.loc` returns a series, not a number) are not modelled, because a series is a map with one value per date.

## Findings

| source | as written | input that shows it | evidently intended | confidence | as-written member | corrected member |
|---|---|---|---|---|---|---|
| backend/app/libs/covalent/treasury.py:92-97 | the filter reads `item["holdings"][0]` (lines 92 and 95) before the guard `and item["holdings"]` (line 97), so the guard can never be false when reached, and an item without holdings raises `IndexError` | a portfolio with one whitelisted item whose `holdings` list is empty | items without holdings are skipped, and the rest of the treasury is built | high; not executed | CovalentTreasury.GetTreasuryAsWritten (counterexample: CovalentTreasury.EmptyHoldingsCounterexample) | CovalentTreasury.GetTreasury (proved: CovalentTreasury.GetTreasuryAssets, CovalentTreasury.GetTreasuryAsWrittenAgrees) |
