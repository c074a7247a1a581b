/** The portfolio simulator of `analyze_stock_data`: a day-by-day fold over
    the aligned columns that buys a trend-sized number of shares on a buy
    crossing, sells everything on a sell crossing and otherwise carries the
    account forward. Shares are whole numbers; cash and prices are exact reals. */
module Portfolio {
  import opened Wrappers
  import opened Numeric
  import opened Signals

  /** One day of the `Quantity`, `Cash` and `Holdings` columns. `quantity` is
      the signed number of shares traded that day (0 when none). */
  datatype Row = Row(quantity: int, cash: real, holdings: int)

  /** `Total Value`: cash plus the holdings marked at the given close. */
  function TotalValue(row: Row, price: real): real
  {
    row.cash + Scale(row.holdings, price)
  }

  // ---------------------------------------------------------------------
  // Position sizing

  /** `base_quantity = cash // close`. */
  function BaseQuantity(cash: real, price: real): int
    requires price != 0.0
  {
    FloorDiv(cash, price)
  }

  /** At a positive price the base is the largest whole number of shares the
      cash pays for; it is negative exactly when the cash is. */
  lemma BaseQuantityBounds(cash: real, price: real)
    requires 0.0 < price
    ensures Scale(BaseQuantity(cash, price), price) <= cash < Scale(BaseQuantity(cash, price) + 1, price)
    ensures BaseQuantity(cash, price) < 0 <==> cash < 0.0
  {
    var base := BaseQuantity(cash, price);
    FloorDivBounds(cash, price);
    FloorScaled(cash, price, base);
    assert Scale(0, price) == 0.0;
    if cash < 0.0 {
      MultiplesOrdered(base, 0, price);
    } else {
      MultiplesOrdered(-1, base, price);
    }
  }

  /** `min_quantity = max(1, int(base * 0.1))`: a tenth of the base, never
      below one share. */
  function MinQuantity(base: int): (q: int)
    ensures 1 <= q
    ensures 1 <= base ==> q <= base
    ensures 0 <= base ==> q == if base < 10 then 1 else base / 10
    ensures base < 0 ==> q == 1
  {
    var t := Trunc(base as real * 0.1);
    TruncBounds(base as real * 0.1);
    assert 0 <= base ==> 10 * t <= base < 10 * t + 10;
    Max(1, t)
  }

  /** `max_quantity = min(int(base * 1.5), base)`: never above the base and
      equal to it whenever the base is not negative. */
  function MaxQuantity(base: int): (q: int)
    ensures q <= base
    ensures 0 <= base ==> q == base
  {
    TruncBounds(base as real * 1.5);
    Min(Trunc(base as real * 1.5), base)
  }

  /** `short_slope / long_slope`, defined only when both slopes exist and the
      long one is not zero. */
  function TrendStrength(shortSlope: Option<real>, longSlope: Option<real>): (ts: Option<real>)
    ensures ts.Some? <==> shortSlope.Some? && longSlope.Some? && longSlope.value != 0.0
    ensures ts.Some? ==> ts.value * longSlope.value == shortSlope.value
  {
    if shortSlope.Some? && longSlope.Some? && longSlope.value != 0.0
    then Some(shortSlope.value / longSlope.value)
    else None
  }

  /** `quantity_to_buy` on a buy day: the base scaled by the trend strength
      capped at 1, clamped into `[min_quantity, max_quantity]` with the lower
      bound applied last; just `min_quantity` when the trend strength is
      undefined or not positive. */
  function BuyQuantity(cash: real, price: real, shortSlope: Option<real>, longSlope: Option<real>): (q: int)
    requires price != 0.0
    ensures 1 <= q
  {
    var base := BaseQuantity(cash, price);
    var minQ := MinQuantity(base);
    var maxQ := MaxQuantity(base);
    match TrendStrength(shortSlope, longSlope)
    case Some(ts) =>
      if ts > 0.0 then Max(Min(Trunc(Scale(base, MinReal(ts, 1.0))), maxQ), minQ) else minQ
    case None => minQ
  }

  /** What the sizing promises: never fewer than `min_quantity` (so at least
      one share); never more than `max_quantity` unless the two bounds cross;
      exactly `min_quantity` when the trend strength is undefined or not
      positive; the whole base when the base is positive and the trend
      strength reaches 1. */
  lemma BuyQuantityBounds(cash: real, price: real, shortSlope: Option<real>, longSlope: Option<real>)
    requires price != 0.0
    ensures var base := BaseQuantity(cash, price);
      var q := BuyQuantity(cash, price, shortSlope, longSlope);
      var ts := TrendStrength(shortSlope, longSlope);
      1 <= MinQuantity(base) <= q &&
      (MinQuantity(base) <= MaxQuantity(base) ==> q <= MaxQuantity(base)) &&
      (ts.None? || ts.value <= 0.0 ==> q == MinQuantity(base)) &&
      (1 <= base && ts.Some? && ts.value >= 1.0 ==> q == base)
  {
    var base := BaseQuantity(cash, price);
    match TrendStrength(shortSlope, longSlope)
    case Some(ts) =>
      if ts >= 1.0 {
        ScaleIsProduct(base, 1.0);
        TruncBounds(base as real);
      }
    case None =>
  }

  /** A buy at a positive price with at least one share's worth of cash never
      overdraws the account. */
  lemma BuyIsAffordable(cash: real, price: real, shortSlope: Option<real>, longSlope: Option<real>)
    requires 0.0 < price <= cash
    ensures Scale(BuyQuantity(cash, price, shortSlope, longSlope), price) <= cash
  {
    var base := BaseQuantity(cash, price);
    BaseQuantityBounds(cash, price);
    BuyQuantityBounds(cash, price, shortSlope, longSlope);
    assert Scale(1, price) == price;
    MultiplesOrdered(1, base + 1, price);
    ScaleMonotone(BuyQuantity(cash, price, shortSlope, longSlope), base, price);
  }

  /** ...but with cash short of one share (none at all, or already below
      zero after an earlier overdraft) the buy still takes one share and
      leaves cash below zero: the minimum quantity is never below one. */
  lemma BuyShortOfCashOverdraws(cash: real, price: real, shortSlope: Option<real>, longSlope: Option<real>)
    requires 0.0 < price && cash < price
    ensures BuyQuantity(cash, price, shortSlope, longSlope) == 1
    ensures cash - Scale(BuyQuantity(cash, price, shortSlope, longSlope), price) < 0.0
  {
    var base := BaseQuantity(cash, price);
    BaseQuantityBounds(cash, price);
    assert Scale(1, price) == price;
    if cash < 0.0 {
      assert base < 0 && MinQuantity(base) == 1 && MaxQuantity(base) < 0;
    } else {
      MultiplesOrdered(base, 1, price);
      assert base == 0;
      assert MinQuantity(base) == 1 && MaxQuantity(base) == 0;
    }
    BuyQuantityBounds(cash, price, shortSlope, longSlope);
  }

  // ---------------------------------------------------------------------
  // One day of the simulation

  /** Day `i` given day `i - 1`: buy on position +1, liquidate on position -1,
      carry the account forward otherwise (an absent position is neither). */
  function Step(prev: Row, price: real, position: Option<int>, shortSlope: Option<real>, longSlope: Option<real>): Row
    requires price != 0.0
  {
    if position == Some(1) then
      var q := BuyQuantity(prev.cash, price, shortSlope, longSlope);
      Row(q, prev.cash - Scale(q, price), prev.holdings + q)
    else if position == Some(-1) then
      Row(-prev.holdings, prev.cash + Scale(prev.holdings, price), 0)
    else
      Row(0, prev.cash, prev.holdings)
  }

  /** Every step is double-entry: the shares traded move the holdings and
      their cost at today's close moves the cash, so the value at today's close
      is unchanged. Holdings stay non-negative, a buy takes at least one share,
      a sell empties the position and any other day trades nothing. */
  lemma StepBalances(prev: Row, price: real, position: Option<int>, shortSlope: Option<real>, longSlope: Option<real>)
    requires price != 0.0
    ensures var r := Step(prev, price, position, shortSlope, longSlope);
      r.holdings == prev.holdings + r.quantity &&
      r.cash == prev.cash - Scale(r.quantity, price) &&
      TotalValue(r, price) == TotalValue(prev, price) &&
      (0 <= prev.holdings ==> 0 <= r.holdings) &&
      (position == Some(1) ==> 1 <= r.quantity) &&
      (position == Some(-1) ==> r.holdings == 0) &&
      (position != Some(1) && position != Some(-1) ==> r.quantity == 0)
  {
    if position == Some(1) {
      BuyQuantityBounds(prev.cash, price, shortSlope, longSlope);
      ScaleAdd(prev.holdings, BuyQuantity(prev.cash, price, shortSlope, longSlope), price);
    } else if position == Some(-1) {
      ScaleNegate(prev.holdings, price);
    } else {
      assert Scale(0, price) == 0.0;
    }
  }

  /** The simulator never divides by a zero close: the source computes
      `cash // close` on every day from the second on. */
  predicate Tradable(close: seq<real>)
  {
    forall i :: 1 <= i < |close| ==> close[i] != 0.0
  }

  predicate Inputs(close: seq<real>, ind: Indicators)
  {
    |ind.position| == |close| && |ind.shortSlope| == |close| && |ind.longSlope| == |close| &&
    Tradable(close)
  }

  /** The account at the end of day `i`: day 0 holds the initial investment
      and no shares; every later day is `Step` applied to the day before at
      that day's close and indicators. */
  function Account(close: seq<real>, ind: Indicators, initial: real, i: nat): Row
    requires Inputs(close, ind) && i < |close|
  {
    if i == 0 then Row(0, initial, 0)
    else Step(Account(close, ind, initial, i - 1), close[i], ind.position[i], ind.shortSlope[i], ind.longSlope[i])
  }

  // ---------------------------------------------------------------------
  // The simulation loop

  /** Creates the `Quantity`, `Cash` and `Holdings` columns, fills them in
      place one day at a time from the day before, then derives `Total Value`:
      day 0 is the initial account and every later day is `Step` applied to
      the day before (so each row is `Account` of its day, `ReplayIsAccount`). */
  method Simulate(close: seq<real>, ind: Indicators, initial: real)
    returns (quantity: seq<int>, cash: seq<real>, holdings: seq<int>, totalValue: seq<real>)
    requires Inputs(close, ind)
    ensures |quantity| == |cash| == |holdings| == |totalValue| == |close|
    ensures |close| > 0 ==> Row(quantity[0], cash[0], holdings[0]) == Row(0, initial, 0)
    ensures forall i :: 1 <= i < |close| ==>
      Row(quantity[i], cash[i], holdings[i]) ==
      Step(Row(quantity[i - 1], cash[i - 1], holdings[i - 1]), close[i], ind.position[i], ind.shortSlope[i], ind.longSlope[i])
    ensures forall i :: 0 <= i < |close| ==> totalValue[i] == cash[i] + Scale(holdings[i], close[i])
  {
    var n := |close|;
    var q := new int[n](_ => 0);
    var c := new real[n](_ => initial);
    var h := new int[n](_ => 0);
    if n > 0 {
      for i := 1 to n
        invariant q[0] == 0 && c[0] == initial && h[0] == 0
        invariant forall j :: 1 <= j < i ==>
          Row(q[j], c[j], h[j]) ==
          Step(Row(q[j - 1], c[j - 1], h[j - 1]), close[j], ind.position[j], ind.shortSlope[j], ind.longSlope[j])
      {
        var prevCash, prevHeld := c[i - 1], h[i - 1];
        if ind.position[i] == Some(1) {
          var toBuy := BuyQuantity(prevCash, close[i], ind.shortSlope[i], ind.longSlope[i]);
          q[i], c[i], h[i] := toBuy, prevCash - Scale(toBuy, close[i]), prevHeld + toBuy;
        } else if ind.position[i] == Some(-1) {
          var toSell := prevHeld;
          q[i], c[i], h[i] := -toSell, prevCash + Scale(toSell, close[i]), 0;
        } else {
          // `Quantity` keeps the 0 it was created with
          q[i], c[i], h[i] := 0, prevCash, prevHeld;
        }
      }
    }
    quantity, cash, holdings := q[..], c[..], h[..];
    totalValue := seq(n, j requires 0 <= j < n => cash[j] + Scale(holdings[j], close[j]));
  }

  // ---------------------------------------------------------------------
  // Properties of the simulated account

  /** Columns that start from the initial account and advance by `Step` each
      day, as `Simulate` fills them, are the account of every day. */
  lemma {:induction false} ReplayIsAccount(close: seq<real>, ind: Indicators, initial: real,
                                           quantity: seq<int>, cash: seq<real>, holdings: seq<int>, i: nat)
    requires Inputs(close, ind) && |quantity| == |cash| == |holdings| == |close| && i < |close|
    requires Row(quantity[0], cash[0], holdings[0]) == Row(0, initial, 0)
    requires forall j :: 1 <= j < |close| ==>
      Row(quantity[j], cash[j], holdings[j]) ==
      Step(Row(quantity[j - 1], cash[j - 1], holdings[j - 1]), close[j], ind.position[j], ind.shortSlope[j], ind.longSlope[j])
    ensures Row(quantity[i], cash[i], holdings[i]) == Account(close, ind, initial, i)
  {
    if i > 0 {
      ReplayIsAccount(close, ind, initial, quantity, cash, holdings, i - 1);
    }
  }

  /** Double-entry bookkeeping of one day (see `StepBalances`). */
  lemma DayBalances(close: seq<real>, ind: Indicators, initial: real, i: nat)
    requires Inputs(close, ind) && 1 <= i < |close|
    ensures var today, yesterday := Account(close, ind, initial, i), Account(close, ind, initial, i - 1);
      today.holdings == yesterday.holdings + today.quantity &&
      today.cash == yesterday.cash - Scale(today.quantity, close[i]) &&
      TotalValue(today, close[i]) == TotalValue(yesterday, close[i]) &&
      (0 <= yesterday.holdings ==> 0 <= today.holdings)
  {
    StepBalances(Account(close, ind, initial, i - 1), close[i], ind.position[i], ind.shortSlope[i], ind.longSlope[i]);
  }

  /** Holdings never go negative: the simulator never sells short. */
  lemma {:induction false} HoldingsNeverNegative(close: seq<real>, ind: Indicators, initial: real, i: nat)
    requires Inputs(close, ind) && i < |close|
    ensures 0 <= Account(close, ind, initial, i).holdings
  {
    if i > 0 {
      HoldingsNeverNegative(close, ind, initial, i - 1);
      DayBalances(close, ind, initial, i);
    }
  }

  /** Every day is value-neutral at its own close, so the total value moves
      only with the price of the shares held overnight. */
  lemma TotalValueChange(close: seq<real>, ind: Indicators, initial: real, i: nat)
    requires Inputs(close, ind) && 1 <= i < |close|
    ensures var today, yesterday := Account(close, ind, initial, i), Account(close, ind, initial, i - 1);
      TotalValue(today, close[i]) - TotalValue(yesterday, close[i - 1]) ==
      Scale(yesterday.holdings, close[i] - close[i - 1])
  {
    DayBalances(close, ind, initial, i);
    ScaleDifference(Account(close, ind, initial, i - 1).holdings, close[i], close[i - 1]);
  }

  /** Shares traded on the days before day `n`. */
  function SharesTraded(close: seq<real>, ind: Indicators, initial: real, n: nat): int
    requires Inputs(close, ind) && n <= |close|
  {
    if n == 0 then 0
    else SharesTraded(close, ind, initial, n - 1) + Account(close, ind, initial, n - 1).quantity
  }

  /** Cash paid for the trades of the days before day `n`, each at its own
      day's close (sales count negative). */
  function CashSpent(close: seq<real>, ind: Indicators, initial: real, n: nat): real
    requires Inputs(close, ind) && n <= |close|
  {
    if n == 0 then 0.0
    else CashSpent(close, ind, initial, n - 1) + Scale(Account(close, ind, initial, n - 1).quantity, close[n - 1])
  }

  /** The account is exactly its trade log: holdings are the shares traded so
      far and cash is the initial investment less what those trades cost. */
  lemma {:induction false} AccountIsTradeLog(close: seq<real>, ind: Indicators, initial: real, i: nat)
    requires Inputs(close, ind) && i < |close|
    ensures Account(close, ind, initial, i).holdings == SharesTraded(close, ind, initial, i + 1)
    ensures Account(close, ind, initial, i).cash == initial - CashSpent(close, ind, initial, i + 1)
  {
    if i == 0 {
      assert Scale(0, close[0]) == 0.0;
    } else {
      AccountIsTradeLog(close, ind, initial, i - 1);
      DayBalances(close, ind, initial, i);
    }
  }

  /** With no crossing after day 0 the account never moves. */
  lemma {:induction false} IdleAccount(close: seq<real>, ind: Indicators, initial: real, i: nat)
    requires Inputs(close, ind) && i < |close|
    requires forall k :: 1 <= k < |close| ==> ind.position[k] != Some(1) && ind.position[k] != Some(-1)
    ensures Account(close, ind, initial, i) == Row(0, initial, 0)
  {
    if i > 0 {
      IdleAccount(close, ind, initial, i - 1);
    }
  }
}
