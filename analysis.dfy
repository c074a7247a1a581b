/** `analyze_stock_data` end to end: the indicator columns, then the portfolio
    simulation over them, returned as one frame aligned with the closes. */
module Analysis {
  import opened Wrappers
  import opened Numeric
  import opened Signals
  import opened Portfolio

  /** The frame the function returns: the closes and every column it adds. */
  datatype Frame = Frame(
    close: seq<real>,
    indicators: Indicators,
    quantity: seq<int>,
    cash: seq<real>,
    holdings: seq<int>,
    totalValue: seq<real>)

  /** `analyze_stock_data`: computes the indicator columns, then runs the simulation.
      Every simulated row is the account of its day and `Total Value` marks it
      at that day's close. */
  method AnalyzeStockData(close: seq<real>, shortWindow: nat, longWindow: nat, initial: real)
    returns (frame: Frame)
    requires shortWindow >= 1 && longWindow >= 1
    requires Tradable(close)
    ensures frame.close == close
    ensures frame.indicators == ComputeIndicators(close, shortWindow, longWindow)
    ensures |frame.quantity| == |frame.cash| == |frame.holdings| == |frame.totalValue| == |close|
    ensures forall i :: 0 <= i < |close| ==>
      Row(frame.quantity[i], frame.cash[i], frame.holdings[i]) ==
      Account(close, frame.indicators, initial, i)
    ensures forall i :: 0 <= i < |close| ==>
      frame.totalValue[i] == TotalValue(Row(frame.quantity[i], frame.cash[i], frame.holdings[i]), close[i])
  {
    var ind := ComputeIndicators(close, shortWindow, longWindow);
    var quantity, cash, holdings, totalValue := Simulate(close, ind, initial);
    forall i | 0 <= i < |close|
      ensures Row(quantity[i], cash[i], holdings[i]) == Account(close, ind, initial, i)
    {
      ReplayIsAccount(close, ind, initial, quantity, cash, holdings, i);
    }
    frame := Frame(close, ind, quantity, cash, holdings, totalValue);
  }

  /** The signal starts flat: with a short window of at least one day, the
      first day's signal is 0, so the first crossing can only be a buy and
      no sell ever comes before a buy. */
  lemma NoSellBeforeBuy(close: seq<real>, shortWindow: nat, longWindow: nat, i: nat)
    requires shortWindow >= 1 && longWindow >= 1
    requires 1 <= i < |close|
    requires ComputeIndicators(close, shortWindow, longWindow).position[i] == Some(-1)
    ensures exists k :: 1 <= k < i && ComputeIndicators(close, shortWindow, longWindow).position[k] == Some(1)
  {
    var sig := ComputeIndicators(close, shortWindow, longWindow).signal;
    assert sig[0] != 1;
    BuyBeforeSell(sig, i);
  }

  /** A constant price never crosses: both averages equal the price wherever
      they exist, the short one is never strictly above, so the simulation
      never trades and the total value stays at the initial investment. */
  lemma FlatSeriesNeverTrades(close: seq<real>, shortWindow: nat, longWindow: nat, initial: real, p: real, i: nat)
    requires shortWindow >= 1 && longWindow >= 1
    requires p != 0.0 && i < |close|
    requires forall k :: 0 <= k < |close| ==> close[k] == p
    ensures Tradable(close)
    ensures var ind := ComputeIndicators(close, shortWindow, longWindow);
      Account(close, ind, initial, i) == Row(0, initial, 0) &&
      TotalValue(Account(close, ind, initial, i), close[i]) == initial
  {
    var ind := ComputeIndicators(close, shortWindow, longWindow);
    forall k | 0 <= k < |close|
      ensures ind.signal[k] == 0
    {
      if shortWindow - 1 <= k {
        MovingAverageWithinRange(close, shortWindow, k, p, p);
      }
      if longWindow - 1 <= k {
        MovingAverageWithinRange(close, longWindow, k, p, p);
      }
    }
    forall k | 1 <= k < |close|
      ensures ind.position[k] == Some(0)
    {
      assert ind.signal[k - 1] == 0 && ind.signal[k] == 0;
    }
    IdleAccount(close, ind, initial, i);
    assert Scale(0, close[i]) == 0.0;
  }
}
