/** The signal generator of `analyze_stock_data`: two trailing simple moving
    averages of the closing price, their first differences (slopes), a binary
    trend signal and its first difference, the position change. Every column
    is aligned with the price series; a cell that pandas leaves NaN is `None`. */
module Signals {
  import opened Wrappers

  /** Sum of a sequence, accumulated from the back. */
  function Sum(s: seq<real>): real
  {
    if s == [] then 0.0 else Sum(s[..|s| - 1]) + s[|s| - 1]
  }

  /** `close.rolling(window=w).mean()`: at day `i` the mean of the `w` closes
      ending at `i`, absent until `w` closes exist (no partial windows). */
  function MovingAverage(close: seq<real>, w: nat): (ma: seq<Option<real>>)
    requires w >= 1
    ensures |ma| == |close|
    ensures forall i :: 0 <= i < |close| ==> (ma[i].None? <==> i < w - 1)
  {
    seq(|close|, i requires 0 <= i < |close| =>
      if i < w - 1 then None else Some(Sum(close[i - w + 1..i + 1]) / w as real))
  }

  /** `Series.diff()`: today's value minus yesterday's, absent on the first day
      and wherever either operand is absent. */
  function Slope(ma: seq<Option<real>>): (d: seq<Option<real>>)
    ensures |d| == |ma|
    ensures forall i :: 0 <= i < |ma| ==>
      (d[i].Some? <==> 1 <= i && ma[i].Some? && ma[i - 1].Some?)
    ensures forall i :: 1 <= i < |ma| && d[i].Some? ==>
      ma[i - 1].value + d[i].value == ma[i].value
  {
    seq(|ma|, i requires 0 <= i < |ma| =>
      if 1 <= i && ma[i].Some? && ma[i - 1].Some? then Some(ma[i].value - ma[i - 1].value) else None)
  }

  /** The trend signal: 0 on the first `shortWindow` days; afterwards 1 exactly
      when the short average is strictly above the long one. A tie, or an
      average that is still absent, gives 0. */
  function Signal(shortMA: seq<Option<real>>, longMA: seq<Option<real>>, shortWindow: nat): (sig: seq<int>)
    requires |shortMA| == |longMA|
    ensures |sig| == |shortMA|
    ensures Binary(sig)
    ensures forall i :: 0 <= i < |sig| ==>
      (sig[i] == 1 <==> shortWindow <= i && shortMA[i].Some? && longMA[i].Some? && shortMA[i].value > longMA[i].value)
  {
    seq(|shortMA|, i requires 0 <= i < |shortMA| =>
      if i < shortWindow then 0
      else if shortMA[i].Some? && longMA[i].Some? && shortMA[i].value > longMA[i].value then 1
      else 0)
  }

  /** `Signal.diff()`: the change of the signal since yesterday, absent on the
      first day. */
  function Position(sig: seq<int>): (pos: seq<Option<int>>)
    ensures |pos| == |sig|
    ensures |sig| > 0 ==> pos[0] == None
    ensures forall i :: 1 <= i < |sig| ==> pos[i].Some? && sig[i - 1] + pos[i].value == sig[i]
  {
    seq(|sig|, i requires 0 <= i < |sig| => if i == 0 then None else Some(sig[i] - sig[i - 1]))
  }

  predicate Binary(sig: seq<int>)
  {
    forall i :: 0 <= i < |sig| ==> sig[i] == 0 || sig[i] == 1
  }

  /** The columns derived from the closes before the simulation starts. */
  datatype Indicators = Indicators(
    shortMA: seq<Option<real>>,
    longMA: seq<Option<real>>,
    shortSlope: seq<Option<real>>,
    longSlope: seq<Option<real>>,
    signal: seq<int>,
    position: seq<Option<int>>)

  predicate AlignedWith(ind: Indicators, n: nat)
  {
    |ind.shortMA| == n && |ind.longMA| == n && |ind.shortSlope| == n &&
    |ind.longSlope| == n && |ind.signal| == n && |ind.position| == n
  }

  function ComputeIndicators(close: seq<real>, shortWindow: nat, longWindow: nat): (ind: Indicators)
    requires shortWindow >= 1 && longWindow >= 1
    ensures AlignedWith(ind, |close|)
    ensures Binary(ind.signal)
  {
    var shortMA := MovingAverage(close, shortWindow);
    var longMA := MovingAverage(close, longWindow);
    var signal := Signal(shortMA, longMA, shortWindow);
    Indicators(shortMA, longMA, Slope(shortMA), Slope(longMA), signal, Position(signal))
  }

  // ---------------------------------------------------------------------
  // Moving averages

  lemma {:induction false} SumFront(s: seq<real>)
    requires |s| >= 1
    ensures Sum(s) == s[0] + Sum(s[1..])
  {
    if |s| > 1 {
      SumFront(s[..|s| - 1]);
      assert s[..|s| - 1][1..] == s[1..][..|s| - 2];
    }
  }

  lemma {:induction false} SumBounds(s: seq<real>, lo: real, hi: real)
    requires forall k :: 0 <= k < |s| ==> lo <= s[k] <= hi
    ensures lo * |s| as real <= Sum(s) <= hi * |s| as real
  {
    if s != [] {
      SumBounds(s[..|s| - 1], lo, hi);
    }
  }

  /** A moving average never leaves the range of the closes in its window; in
      particular over a constant stretch of closes it equals that constant. */
  lemma MovingAverageWithinRange(close: seq<real>, w: nat, i: nat, lo: real, hi: real)
    requires w >= 1 && w - 1 <= i < |close|
    requires forall k :: i - w + 1 <= k <= i ==> lo <= close[k] <= hi
    ensures MovingAverage(close, w)[i].Some?
    ensures lo <= MovingAverage(close, w)[i].value <= hi
  {
    var window := close[i - w + 1..i + 1];
    assert |window| == w;
    SumBounds(window, lo, hi);
    assert MovingAverage(close, w)[i] == Some(Sum(window) / w as real);
    DivideWithin(Sum(window), w as real, lo, hi);
  }

  lemma DivideWithin(s: real, w: real, lo: real, hi: real)
    requires 0.0 < w && lo * w <= s <= hi * w
    ensures lo <= s / w <= hi
  {
  }

  /** The slope of a `w`-day average, once both averages exist, is the price
      that entered the window minus the one that left it, divided by `w`. */
  lemma MovingAverageSlope(close: seq<real>, w: nat, i: nat)
    requires w >= 1 && w <= i < |close|
    ensures Slope(MovingAverage(close, w))[i] == Some((close[i] - close[i - w]) / w as real)
  {
    var ma := MovingAverage(close, w);
    var today := close[i - w + 1..i + 1];
    var yesterday := close[i - w..i];
    assert ma[i] == Some(Sum(today) / w as real);
    assert ma[i - 1] == Some(Sum(yesterday) / w as real);
    WindowSlides(close, w, i);
    DivideDifference(Sum(today), Sum(yesterday), w as real);
  }

  /** Sliding a window one day on adds the close that enters it and drops the
      one that leaves it. */
  lemma WindowSlides(close: seq<real>, w: nat, i: nat)
    requires w >= 1 && w <= i < |close|
    ensures Sum(close[i - w + 1..i + 1]) - Sum(close[i - w..i]) == close[i] - close[i - w]
  {
    var inner := close[i - w + 1..i];
    var today := close[i - w + 1..i + 1];
    var yesterday := close[i - w..i];
    assert today[..|today| - 1] == inner;
    SumFront(yesterday);
    assert yesterday[1..] == inner;
  }

  lemma DivideDifference(a: real, b: real, w: real)
    requires w != 0.0
    ensures a / w - b / w == (a - b) / w
  {
  }

  // ---------------------------------------------------------------------
  // Signal and position

  /** On a binary signal every position is -1, 0 or +1: +1 exactly on a cross
      from 0 to 1, -1 exactly on a cross from 1 to 0, 0 when nothing changed. */
  lemma PositionIsCrossing(sig: seq<int>, i: nat)
    requires Binary(sig) && 1 <= i < |sig|
    ensures Position(sig)[i] == Some(-1) || Position(sig)[i] == Some(0) || Position(sig)[i] == Some(1)
    ensures Position(sig)[i] == Some(1) <==> sig[i - 1] == 0 && sig[i] == 1
    ensures Position(sig)[i] == Some(-1) <==> sig[i - 1] == 1 && sig[i] == 0
    ensures Position(sig)[i] == Some(0) <==> sig[i - 1] == sig[i]
  {
  }

  /** Between a day on signal `v` and a later day off it, the signal leaves `v`
      on some day in between. */
  lemma {:induction false} LeavesBetween(sig: seq<int>, a: nat, b: nat, v: int)
    requires a < b < |sig| && sig[a] == v && sig[b] != v
    ensures exists k :: a < k <= b && sig[k - 1] == v && sig[k] != v
    decreases b - a
  {
    if sig[a + 1] == v {
      LeavesBetween(sig, a + 1, b, v);
    } else {
      assert sig[a + 1 - 1] == v;
    }
  }

  /** Buy and sell crossings alternate: between two buys there is a sell, and
      between two sells a buy. */
  lemma CrossingsAlternate(sig: seq<int>, i: nat, j: nat, d: int)
    requires Binary(sig) && 1 <= i < j < |sig|
    requires d == 1 || d == -1
    requires Position(sig)[i] == Some(d) && Position(sig)[j] == Some(d)
    ensures exists k :: i < k < j && Position(sig)[k] == Some(-d)
  {
    PositionIsCrossing(sig, i);
    PositionIsCrossing(sig, j);
    var v := sig[i];
    LeavesBetween(sig, i, j - 1, v);
    var k :| i < k <= j - 1 && sig[k - 1] == v && sig[k] != v;
    PositionIsCrossing(sig, k);
  }

  /** A signal that starts at 0 crosses upward before it can cross downward:
      every sell crossing has an earlier buy crossing. */
  lemma BuyBeforeSell(sig: seq<int>, i: nat)
    requires Binary(sig) && 1 <= i < |sig| && sig[0] == 0
    requires Position(sig)[i] == Some(-1)
    ensures exists k :: 1 <= k < i && Position(sig)[k] == Some(1)
  {
    PositionIsCrossing(sig, i);
    LeavesBetween(sig, 0, i - 1, 0);
    var k :| 0 < k <= i - 1 && sig[k - 1] == 0 && sig[k] != 0;
    PositionIsCrossing(sig, k);
  }
}
