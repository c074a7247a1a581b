# stockIQ `analyze_stock_data` in Dafny

A model of the moving-average-crossover backtest of stockIQ
(`analyze_stock_data` in `stock_data_api.py`), with proofs about it. The
function takes a series of daily closing prices, two window lengths and an
initial investment. It works in two stages:

1. **Indicators** (module `Signals`, pure functions over sequences):
   - a short and a long trailing simple moving average of the closes, and the
     day-to-day slope of each;
   - a binary signal, 1 when the short average is strictly above the long
     one (forced to 0 on the first `short_window` days);
   - the position change, the first difference of the signal: +1 is a buy
     crossing, -1 a sell crossing.
2. **Simulation** (module `Portfolio`, a method with a `for` loop that fills
   three arrays in place): a day-by-day account of shares traded, cash and
   shares held.
   - A buy crossing buys a number of shares sized from
     `cash // close` and the ratio of the two slopes.
   - A sell crossing sells everything.
   - Any other day carries the account forward.
   - `Total Value` marks the account at each day's close.

Module `Analysis` runs both stages as `AnalyzeStockData`. `Numeric` holds
Python's `int()` (truncation toward zero) and `//` (floor of the quotient) on
exact reals, and `Scale`, a whole number of shares times a price.

A pandas NaN cell is `None` of `Wrappers.Option`. `NaN > x` is false and
`pd.notna` is `Some?`, so the model's branches are the source's branches.

The day-by-day account is specified by the recursive function
`Portfolio.Account`: day 0 holds the initial cash and no shares, and each later
day is `Portfolio.Step` applied to the day before. `Simulate` is proved to fill
its columns by exactly that recurrence. `ReplayIsAccount` proves that such
columns equal `Account` on every day. The properties of the account are lemmas
about `Account`.

Three behaviours of the code a reader may not expect, all modelled as written:

- `Position` on day 0 is absent: pandas' `diff` yields NaN there, not 0. The
  simulation loop starts at day 1, so the value is never read.
- The comment at stock_data_api.py:95 states the intent of the clamp: keep
  the quantity within the range from `min_quantity` to `max_quantity`. The
  clamp applies the lower bound last, so when `base_quantity` is 0 or
  negative, `min_quantity` (1) exceeds `max_quantity` (at most the base) and
  the quantity is 1, outside the range (`BuyQuantityBounds` states the upper
  bound only when the bounds do not cross).
- Because `min_quantity` is never below 1, a buy crossing on a day when the
  cash does not cover one share, including a day when cash is already below
  zero after an earlier such buy, still buys one share and leaves cash below
  zero (`BuyShortOfCashOverdraws`). The model reproduces this overdraft; cash
  is never assumed non-negative.

## Model

| member | source | states |
|---|---|---|
| `Signals.MovingAverage` | stock_data_api.py:66-67 | one cell per close; a cell is absent exactly on the first `w - 1` days (no partial windows) |
| `Signals.MovingAverageWithinRange` | stock_data_api.py:66-67 | once present, a moving average lies between the lowest and highest close in its window; over a flat stretch it equals the price |
| `Signals.MovingAverageSlope` | stock_data_api.py:66-71 | once both averages exist, the slope of a `w`-day average is `(close[i] - close[i - w]) / w` |
| `Signals.Slope` | stock_data_api.py:70-71 | present exactly from day 1 on where today's and yesterday's values are both present; yesterday plus the slope is today |
| `Signals.Signal` | stock_data_api.py:73-74 | binary; 1 exactly when the day is at or after `short_window`, both averages exist and the short one is strictly above the long one |
| `Signals.Position` | stock_data_api.py:75 | absent on day 0; from day 1 on, present and yesterday's signal plus the position is today's |
| `Signals.ComputeIndicators` | stock_data_api.py:66-75 | all six columns are as long as the closes and the signal is binary |
| `Signals.PositionIsCrossing` | stock_data_api.py:73-75 | on a binary signal each position is -1, 0 or +1: +1 exactly on a 0→1 cross, -1 exactly on a 1→0 cross, 0 exactly when unchanged |
| `Signals.CrossingsAlternate` | stock_data_api.py:73-75 | between two buy crossings there is a sell crossing, and between two sells a buy |
| `Signals.BuyBeforeSell` | stock_data_api.py:73-75 | on a binary signal starting at 0, every sell crossing has an earlier buy crossing |
| `Numeric.Trunc` | stock_data_api.py:84-94 | Python's `int()` on a number: drops the fractional part toward zero; its meaning is stated by `TruncBounds` |
| `Numeric.TruncBounds` | stock_data_api.py:84-85 | `int(x)` is the whole number next to `x` toward zero: within 1 of `x` and not beyond it |
| `Numeric.FloorDiv` | stock_data_api.py:83 | Python's `//`: the floor of the exact quotient; its meaning is stated by `FloorDivBounds` |
| `Numeric.FloorDivBounds` | stock_data_api.py:83 | `a // b` is the greatest whole number not above `a / b` |
| `Numeric.ScaleIsProduct` | stock_data_api.py:102 | `n` shares at price `x`, added up share by share, is `n * x` |
| `Portfolio.TotalValue` | stock_data_api.py:113 | cash plus the holdings marked at the close; its change from day to day is stated by `TotalValueChange` and its neutrality under a trade by `StepBalances` |
| `Portfolio.BaseQuantity` | stock_data_api.py:83 | `cash // close`; its meaning (the largest affordable whole number of shares, negative exactly when cash is) is stated by `BaseQuantityBounds` |
| `Portfolio.BaseQuantityBounds` | stock_data_api.py:83 | at a positive close, `base_quantity` shares cost at most the cash and one more share would cost more; it is negative exactly when cash is |
| `Portfolio.MinQuantity` | stock_data_api.py:84 | at least 1; at most the base when the base is positive; a tenth of a non-negative base, rounded down, but never below 1; exactly 1 for a negative base |
| `Portfolio.MaxQuantity` | stock_data_api.py:85 | never above the base; equal to it for a non-negative base |
| `Portfolio.TrendStrength` | stock_data_api.py:89-92 | defined exactly when both slopes exist and the long one is not 0; then it times the long slope is the short slope |
| `Portfolio.BuyQuantity` | stock_data_api.py:87-99 | a buy always takes at least one share; its bounds, fallbacks and cap are stated by `BuyQuantityBounds`, its affordability by `BuyIsAffordable` and `BuyShortOfCashOverdraws` |
| `Portfolio.BuyQuantityBounds` | stock_data_api.py:84-99 | the buy quantity is at least `min_quantity` (so at least 1) and at most `max_quantity` when the two bounds do not cross; `min_quantity` when the trend strength is absent or not positive; the whole base when the base is positive and the trend strength is at least 1 |
| `Portfolio.BuyIsAffordable` | stock_data_api.py:83-102 | at a positive close, with cash for at least one share, a buy never costs more than the cash |
| `Portfolio.BuyShortOfCashOverdraws` | stock_data_api.py:83-102 | at a positive close, with cash short of one share's price (zero, positive or already negative), a buy still takes exactly one share and leaves cash below zero |
| `Portfolio.Step` | stock_data_api.py:87-111 | one day of the loop from the day before: buy on +1, sell everything on -1, carry forward otherwise; its bookkeeping is stated by `StepBalances` |
| `Portfolio.StepBalances` | stock_data_api.py:87-111 | on every day holdings move by the quantity traded and cash by its cost at today's close, so value at today's close is unchanged; holdings stay non-negative; a buy trades at least one share, a sell empties the position, any other day trades nothing |
| `Portfolio.Simulate` | stock_data_api.py:77-113 | fills all four columns as long as the closes: day 0 is the initial cash with no shares, each later day is `Step` of the day before at that day's close and indicators, and total value is cash plus holdings times close |
| `Portfolio.Account` | stock_data_api.py:77-111 | the account at the end of each day: the initial row on day 0, then `Step` of the day before; `ReplayIsAccount` proves the loop's columns equal it, and the lemmas below state its properties |
| `Portfolio.ReplayIsAccount` | stock_data_api.py:77-111 | columns built by that recurrence are `Account` on every day |
| `Portfolio.DayBalances` | stock_data_api.py:81-111 | the double-entry bookkeeping of `StepBalances` holds between consecutive days of the account |
| `Portfolio.HoldingsNeverNegative` | stock_data_api.py:101-111 | holdings are never negative: the simulation never sells short |
| `Portfolio.TotalValueChange` | stock_data_api.py:101-113 | total value changes from one day to the next only by the overnight holdings times the change in the close |
| `Portfolio.AccountIsTradeLog` | stock_data_api.py:77-111 | holdings are the sum of the shares traded so far, and cash is the initial investment less the cost of those trades at their days' closes |
| `Portfolio.IdleAccount` | stock_data_api.py:109-111 | with no crossing after day 0, the account stays at the initial cash and no shares |
| `Analysis.AnalyzeStockData` | stock_data_api.py:57-115 | returns the closes, the indicator columns, and columns equal to the account of every day, with total value marked at that day's close |
| `Analysis.NoSellBeforeBuy` | stock_data_api.py:73-75 | the first crossing of the computed signal is never a sell |
| `Analysis.FlatSeriesNeverTrades` | stock_data_api.py:66-113 | on a constant non-zero price the simulation never trades and total value stays at the initial investment |

## Left out

- Fetching the data (`get_us_stock_data`, `get_cn_stock_data`, `get_stock_data`, stock_data_api.py:7-55): network I/O and the clock; the closes are a parameter.
- `app.py`, the Streamlit page that plots the frame: presentation only.
- IEEE-754 floats: prices and cash are exact reals, so rounding is not modelled. This includes `0.1` and `1.5` in the quantity bounds, `int()` of a float that is one ulp off a whole number, and infinities. NaN is modelled only as an absent cell.
- A zero close: from day 1 on the source divides the previous cash by the close on every iteration, and `int()` of the resulting infinity or NaN raises. The model requires closes from day 1 on to be non-zero (`Tradable`) instead of modelling the exception.
- Window lengths below 1 and other parameter validation that the source does not perform: the model requires both windows to be at least 1.
- pandas copy semantics and dtypes: the chained assignments (`df['Signal'][short_window:] = ...`, `df['Quantity'].iloc[i] = ...`) are assumed to write through to the frame, as they do without copy-on-write. An integer `Cash` column receiving float values is not modelled. The frame's other columns and its index are not modelled.
- `Portfolio.Simulate` writes `Quantity` 0 on a day without a crossing. The source leaves the 0 the column was created with; the values agree.
