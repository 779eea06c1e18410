/**
 * The weekly backtest loop (`run_backtest` in backtest.py). On every rebalance date after the
 * first it applies, to both index values, the return earned since the previous date:
 * - the benchmark's period return;
 * - the equal-weight mean return of the holdings picked on the previous date.
 * It then picks the new holdings and records one curve point. It also keeps, per calendar year,
 * the index values at the start and at the end of that year's steps.
 */
module Simulator {
  import opened Wrappers
  import opened Numeric
  import opened Prices
  import opened Calendar
  import opened Selection
  import opened Schedule
  import opened Buckets

  /** The index base of both curves. */
  const INITIAL_CAPITAL: real := 100.0

  /** One `equity_curve` entry. */
  datatype Point = Point(date: int, strategy: real, benchmark: real)

  /** The backtest's inputs: the close table, the benchmark series and the ticker metadata. */
  datatype Inputs = Inputs(prices: PriceTable, bench: seq<Obs>, metadata: map<string, Meta>)

  predicate PositiveSeries(obs: seq<Obs>)
  {
    forall o :: o in obs ==> o.price > 0.0
  }

  /**
   * What the backtest needs of its inputs: an index long enough to read the schedule cutoff from,
   * in date order, and a benchmark with positive levels.
   */
  predicate Valid(inp: Inputs)
  {
    && |inp.prices.index| > CUTOFF_POSITION
    && StrictlyIncreasing(inp.prices.index)
    && PositiveSeries(inp.bench)
  }

  /**
   * The benchmark return over (prev, curr]:
   * - with two or more observations in the window: last over first, minus one;
   * - otherwise, when both dates are benchmark dates: their ratio, minus one;
   * - otherwise zero.
   */
  function BenchmarkReturn(bench: seq<Obs>, prev: int, curr: int): (r: real)
    requires PositiveSeries(bench)
    ensures r > -1.0
  {
    var w := Between(bench, prev, curr);
    if |w| >= 2 then
      assert w[0] in bench && w[|w| - 1] in bench;
      RatioAboveMinusOne(w[|w| - 1].price, w[0].price);
      w[|w| - 1].price / w[0].price - 1.0
    else
      var p0 := At(bench, prev);
      var p1 := At(bench, curr);
      if p0.Some? && p1.Some? then
        RatioAboveMinusOne(p1.value, p0.value);
        p1.value / p0.value - 1.0
      else 0.0
  }

  /**
   * The return of holding `t` over (prev, curr]: its last close in the window over its last close
   * on or before `prev`, minus one. `None` (the holding is skipped) when the ticker is not a
   * column, it has no close in the window or none before it, or the earlier close is not
   * positive.
   */
  function HoldingReturn(prices: PriceTable, t: string, prev: int, curr: int): Option<real>
  {
    var col := ColumnOf(prices.columns, t);
    if col.None? then None
    else
      var s := Observations(prices.index, col.value.closes);
      var window := Between(s, prev, curr);
      var before := UpTo(s, prev);
      if |window| == 0 || |before| == 0 then None
      else
        var p0 := before[|before| - 1].price;
        var p1 := window[|window| - 1].price;
        if p0 > 0.0 then Some(p1 / p0 - 1.0) else None
  }

  /** `port_rets`: the returns of the holdings that are not skipped, in holding order. */
  function PeriodReturns(prices: PriceTable, holdings: seq<string>, prev: int, curr: int): seq<real>
  {
    if holdings == [] then []
    else
      var r := HoldingReturn(prices, holdings[|holdings| - 1], prev, curr);
      PeriodReturns(prices, holdings[..|holdings| - 1], prev, curr) + (if r.Some? then [r.value] else [])
  }

  /** `value *= (1 + r)`: a value grown by the return `r`. */
  function Grow(value: real, r: real): real
  {
    value * (1.0 + r)
  }

  /** The strategy value after a period: unchanged without returns, else grown by their mean. */
  function StrategyStep(value: real, rets: seq<real>): real
  {
    if rets == [] then value else Grow(value, Mean(rets))
  }

  /** What one step of the loop applies: the holdings' returns and the benchmark return. */
  datatype StepReturns = StepReturns(holdingRets: seq<real>, bmRet: real)

  /** The holdings picked on the `i`-th rebalance date. */
  function Holdings(inp: Inputs, dates: seq<int>, i: nat): seq<string>
    requires i < |dates|
  {
    Selection.Selection(inp.prices, inp.metadata, dates[i], RSL_PERIOD, TOP_N)
  }

  /**
   * The returns step `i` applies: those of the holdings picked on the date before, and the
   * benchmark's over the same period. The first date applies none.
   */
  function StepAt(inp: Inputs, dates: seq<int>, i: nat): StepReturns
    requires PositiveSeries(inp.bench) && i < |dates|
  {
    if i == 0 then StepReturns([], 0.0)
    else StepReturns(PeriodReturns(inp.prices, Holdings(inp, dates, i - 1), dates[i - 1], dates[i]),
                     BenchmarkReturn(inp.bench, dates[i - 1], dates[i]))
  }

  /** The returns of every step of a backtest over `dates`. */
  function Steps(inp: Inputs, dates: seq<int>): (r: seq<StepReturns>)
    requires PositiveSeries(inp.bench)
    ensures |r| == |dates|
    ensures forall i :: 0 <= i < |dates| ==> r[i] == StepAt(inp, dates, i)
  {
    seq(|dates|, i requires 0 <= i < |dates| => StepAt(inp, dates, i))
  }

  /** The strategy index value after step `i`, starting from `INITIAL_CAPITAL`. */
  function StrategyValue(steps: seq<StepReturns>, i: nat): real
    requires i < |steps|
  {
    if i == 0 then INITIAL_CAPITAL
    else StrategyStep(StrategyValue(steps, i - 1), steps[i].holdingRets)
  }

  /** The benchmark index value after step `i`, starting from `INITIAL_CAPITAL`. */
  function BenchmarkValue(steps: seq<StepReturns>, i: nat): real
    requires i < |steps|
  {
    if i == 0 then INITIAL_CAPITAL
    else Grow(BenchmarkValue(steps, i - 1), steps[i].bmRet)
  }

  /** The curve point recorded on the `i`-th date. */
  function CurvePoint(dates: seq<int>, steps: seq<StepReturns>, i: nat): Point
    requires i < |dates| && i < |steps|
  {
    Point(dates[i], StrategyValue(steps, i), BenchmarkValue(steps, i))
  }

  /** The curve recorded over the dates of `steps`. */
  function Curve(dates: seq<int>, steps: seq<StepReturns>): (r: seq<Point>)
    requires |steps| <= |dates|
    ensures |r| == |steps|
    ensures forall k :: 0 <= k < |steps| ==> r[k] == CurvePoint(dates, steps, k)
  {
    seq(|steps|, k requires 0 <= k < |steps| => CurvePoint(dates, steps, k))
  }

  /** The calendar year of each date, `rebal_ts.year`. */
  function YearsOf(dates: seq<int>): (r: seq<int>)
    ensures |r| == |dates|
    ensures forall k :: 0 <= k < |dates| ==> r[k] == Year(dates[k])
  {
    seq(|dates|, k requires 0 <= k < |dates| => Year(dates[k]))
  }

  /**
   * The annual buckets after the first `n` dates. Step `k` (k >= 1) opens the bucket of its
   * date's year, when there is none yet, with the values from before the step. It then sets that
   * bucket's end values to the values after the step.
   */
  function Annual(years: seq<int>, steps: seq<StepReturns>, n: nat): seq<YearBucket>
    requires n <= |years| && n <= |steps|
  {
    if n <= 1 then []
    else
      var m := Annual(years, steps, n - 1);
      var k := n - 1;
      var y := years[k];
      var found := Find(m, y);
      var start := if found.Some? then found.value
                   else Bucket(StrategyValue(steps, k - 1), BenchmarkValue(steps, k - 1), 0.0, 0.0);
      Store(m, y, start.(portEnd := StrategyValue(steps, k), bmEnd := BenchmarkValue(steps, k)))
  }

  /** The loop over the holdings at lines 247-260: the returns of the holdings not skipped. */
  method CollectReturns(prices: PriceTable, holdings: seq<string>, prev: int, curr: int)
    returns (rets: seq<real>)
    ensures rets == PeriodReturns(prices, holdings, prev, curr)
  {
    rets := [];
    for k := 0 to |holdings|
      invariant rets == PeriodReturns(prices, holdings[..k], prev, curr)
    {
      assert holdings[..k + 1][..k] == holdings[..k];
      var ticker := holdings[k];
      var col := ColumnOf(prices.columns, ticker);
      if col.None? {
        continue;
      }
      var s := Observations(prices.index, col.value.closes);
      var window := Between(s, prev, curr);
      if |window| >= 1 {
        var before := UpTo(s, prev);
        if |before| == 0 {
          continue;
        }
        var p0 := before[|before| - 1].price;
        var p1 := window[|window| - 1].price;
        if p0 > 0.0 {
          rets := rets + [p1 / p0 - 1.0];
        }
      }
    }
    assert holdings[..|holdings|] == holdings;
  }

  /**
   * Lines 234-264 of `run_backtest`: the returns of step `i` and the index values after it, from
   * the values before it and the holdings picked on the previous date.
   */
  method ApplyPeriodReturns(inp: Inputs, dates: seq<int>, i: nat, portfolioValue: real, benchmarkValue: real,
                            currentHoldings: seq<string>)
    returns (step: StepReturns, newPortfolio: real, newBenchmark: real)
    requires PositiveSeries(inp.bench) && 1 <= i < |dates|
    requires currentHoldings == Holdings(inp, dates, i - 1)
    ensures step == StepAt(inp, dates, i) && step.bmRet > -1.0
    ensures newPortfolio == StrategyStep(portfolioValue, step.holdingRets)
    ensures newBenchmark == Grow(benchmarkValue, step.bmRet)
  {
    var prev, date := dates[i - 1], dates[i];
    var bmRet := BenchmarkReturn(inp.bench, prev, date);
    newBenchmark := Grow(benchmarkValue, bmRet);
    newPortfolio := portfolioValue;
    var portRets: seq<real> := [];
    if currentHoldings != [] {
      portRets := CollectReturns(inp.prices, currentHoldings, prev, date);
      if portRets != [] {
        var avgRet := Mean(portRets);
        newPortfolio := Grow(portfolioValue, avgRet);
      }
    }
    step := StepReturns(portRets, bmRet);
  }

  /**
   * Lines 267-273 of `run_backtest`: open the bucket of the step's year with the values from
   * before the step when it has none, and set its end values to the values after the step.
   */
  method RecordYear(dates: seq<int>, ghost steps: seq<StepReturns>, i: nat, annual: seq<YearBucket>,
                    portBefore: real, bmBefore: real, bmRet: real, portfolioValue: real, benchmarkValue: real)
    returns (updated: seq<YearBucket>)
    requires 1 <= i < |dates| && i < |steps| && bmRet == steps[i].bmRet && bmRet > -1.0
    requires annual == Annual(YearsOf(dates), steps, i)
    requires portBefore == StrategyValue(steps, i - 1) && bmBefore == BenchmarkValue(steps, i - 1)
    requires portfolioValue == StrategyValue(steps, i) && benchmarkValue == BenchmarkValue(steps, i)
    ensures updated == Annual(YearsOf(dates), steps, i + 1)
  {
    var year := Year(dates[i]);
    updated := annual;
    if Find(updated, year).None? {
      var bmStart := BenchmarkStart(bmBefore, bmRet, benchmarkValue);
      var opening := Bucket(portBefore, bmStart, 0.0, 0.0);
      updated := Store(updated, year, opening);
      StoreFind(annual, year, opening);
      StoreTwice(annual, year, opening, opening.(portEnd := portfolioValue, bmEnd := benchmarkValue));
    }
    var bucket := Find(updated, year).value;
    updated := Store(updated, year, bucket.(portEnd := portfolioValue, bmEnd := benchmarkValue));
  }

  /**
   * `benchmark_value / (1 + bm_ret)` at line 271: dividing the period's growth back out of the
   * new benchmark value gives the value from before the step.
   */
  function BenchmarkStart(before: real, bmRet: real, after: real): (r: real)
    requires bmRet > -1.0 && after == Grow(before, bmRet)
    ensures r == before
  {
    var g := 1.0 + bmRet;
    assert after == before * g;
    DivideOutGrowth(before, g);
    after / g
  }

  /**
   * The state of `run_backtest` after the first `i` dates: the steps applied so far, the curve
   * recorded over them, the buckets, the previous date, both index values and the holdings picked
   * on the previous date.
   */
  ghost predicate Progress(inp: Inputs, dates: seq<int>, i: nat, steps: seq<StepReturns>, curve: seq<Point>,
                           annual: seq<YearBucket>, prevDate: Option<int>, portfolioValue: real,
                           benchmarkValue: real, currentHoldings: seq<string>)
  {
    && PositiveSeries(inp.bench) && i <= |dates|
    && steps == Steps(inp, dates)[..i]
    && curve == Curve(dates, steps)
    && (i == 0 ==> && prevDate == None && annual == []
                   && portfolioValue == INITIAL_CAPITAL && benchmarkValue == INITIAL_CAPITAL)
    && (i > 0 ==> && prevDate == Some(dates[i - 1])
                  && portfolioValue == StrategyValue(steps, i - 1)
                  && benchmarkValue == BenchmarkValue(steps, i - 1)
                  && currentHoldings == Holdings(inp, dates, i - 1)
                  && annual == Annual(YearsOf(dates), steps, i))
  }

  /**
   * Lines 234-273 of `run_backtest` on the `i`-th date (i >= 1): the step's returns, the index
   * values after it and the buckets with that step recorded.
   */
  method ApplyStep(inp: Inputs, dates: seq<int>, i: nat, ghost steps: seq<StepReturns>, annual: seq<YearBucket>,
                   portfolioValue: real, benchmarkValue: real, currentHoldings: seq<string>)
    returns (next: StepReturns, newPortfolio: real, newBenchmark: real, newAnnual: seq<YearBucket>)
    requires PositiveSeries(inp.bench) && 1 <= i < |dates| && |steps| == i
    requires portfolioValue == StrategyValue(steps, i - 1) && benchmarkValue == BenchmarkValue(steps, i - 1)
    requires currentHoldings == Holdings(inp, dates, i - 1) && annual == Annual(YearsOf(dates), steps, i)
    ensures next == StepAt(inp, dates, i)
    ensures newPortfolio == StrategyValue(steps + [next], i)
    ensures newBenchmark == BenchmarkValue(steps + [next], i)
    ensures newAnnual == Annual(YearsOf(dates), steps + [next], i + 1)
  {
    next, newPortfolio, newBenchmark := ApplyPeriodReturns(inp, dates, i, portfolioValue, benchmarkValue, currentHoldings);
    ValuesAppend(steps, next, i);
    AnnualOfAppend(YearsOf(dates), steps, next, i);
    newAnnual := RecordYear(dates, steps + [next], i, annual, portfolioValue, benchmarkValue, next.bmRet,
                            newPortfolio, newBenchmark);
  }

  /** One iteration of the loop of `run_backtest`, on the `i`-th date. */
  method Rebalance(inp: Inputs, dates: seq<int>, i: nat, ghost steps: seq<StepReturns>, curve: seq<Point>,
                   annual: seq<YearBucket>, prevDate: Option<int>, portfolioValue: real,
                   benchmarkValue: real, currentHoldings: seq<string>)
    returns (ghost steps': seq<StepReturns>, curve': seq<Point>, annual': seq<YearBucket>, prevDate': Option<int>,
             portfolioValue': real, benchmarkValue': real, currentHoldings': seq<string>)
    requires i < |dates|
    requires Progress(inp, dates, i, steps, curve, annual, prevDate, portfolioValue, benchmarkValue, currentHoldings)
    ensures Progress(inp, dates, i + 1, steps', curve', annual', prevDate', portfolioValue', benchmarkValue',
                     currentHoldings')
  {
    var date := dates[i];
    var next := StepReturns([], 0.0);
    portfolioValue', benchmarkValue', annual' := portfolioValue, benchmarkValue, annual;
    if prevDate.Some? {
      next, portfolioValue', benchmarkValue', annual' :=
        ApplyStep(inp, dates, i, steps, annual, portfolioValue, benchmarkValue, currentHoldings);
    } else {
      assert Annual(YearsOf(dates), steps + [next], 1) == [];
    }
    CurveAppend(dates, steps, next, curve, portfolioValue', benchmarkValue');
    StepsPrefix(inp, dates, i, steps, next);
    steps' := steps + [next];
    currentHoldings' := SelectPortfolio(inp.prices, inp.metadata, date, RSL_PERIOD, TOP_N);
    curve' := curve + [Point(date, portfolioValue', benchmarkValue')];
    prevDate' := Some(date);
  }

  /** `run_backtest(prices, benchmark, metadata)`. */
  method RunBacktest(inp: Inputs) returns (curve: seq<Point>, annual: seq<YearBucket>)
    requires Valid(inp)
    ensures var dates := RebalanceDates(inp.prices.index);
            && curve == Curve(dates, Steps(inp, dates))
            && annual == Annual(YearsOf(dates), Steps(inp, dates), |dates|)
  {
    var dates := RebalanceDates(inp.prices.index);
    var portfolioValue := INITIAL_CAPITAL;
    var benchmarkValue := INITIAL_CAPITAL;
    var currentHoldings: seq<string> := [];
    curve := [];
    annual := [];
    var prevDate: Option<int> := None;
    ghost var steps: seq<StepReturns> := [];
    ProgressStart(inp, dates);
    for i := 0 to |dates|
      invariant Progress(inp, dates, i, steps, curve, annual, prevDate, portfolioValue, benchmarkValue, currentHoldings)
    {
      steps, curve, annual, prevDate, portfolioValue, benchmarkValue, currentHoldings :=
        Rebalance(inp, dates, i, steps, curve, annual, prevDate, portfolioValue, benchmarkValue, currentHoldings);
    }
    ProgressEnd(inp, dates, steps, curve, annual, prevDate, portfolioValue, benchmarkValue, currentHoldings);
  }

  /** After the last date, the steps are all the steps, so the curve and the buckets are complete. */
  lemma ProgressEnd(inp: Inputs, dates: seq<int>, steps: seq<StepReturns>, curve: seq<Point>,
                    annual: seq<YearBucket>, prevDate: Option<int>, portfolioValue: real,
                    benchmarkValue: real, currentHoldings: seq<string>)
    requires Progress(inp, dates, |dates|, steps, curve, annual, prevDate, portfolioValue, benchmarkValue, currentHoldings)
    ensures curve == Curve(dates, Steps(inp, dates))
    ensures annual == Annual(YearsOf(dates), Steps(inp, dates), |dates|)
  {
    AllSteps(inp, dates, steps);
  }

  lemma AllSteps(inp: Inputs, dates: seq<int>, steps: seq<StepReturns>)
    requires PositiveSeries(inp.bench) && steps == Steps(inp, dates)[..|dates|]
    ensures steps == Steps(inp, dates)
  {
    var all := Steps(inp, dates);
    assert all[..|all|] == all;
  }

  lemma ProgressStart(inp: Inputs, dates: seq<int>)
    requires PositiveSeries(inp.bench)
    ensures Progress(inp, dates, 0, [], [], [], None, INITIAL_CAPITAL, INITIAL_CAPITAL, [])
  {
  }

  lemma StepsPrefix(inp: Inputs, dates: seq<int>, i: nat, steps: seq<StepReturns>, next: StepReturns)
    requires PositiveSeries(inp.bench) && i < |dates|
    requires steps == Steps(inp, dates)[..i] && next == StepAt(inp, dates, i)
    ensures Steps(inp, dates)[..i + 1] == steps + [next]
  {
    PrefixExtend(Steps(inp, dates), i);
  }

  lemma PrefixExtend<T>(s: seq<T>, i: nat)
    requires i < |s|
    ensures s[..i + 1] == s[..i] + [s[i]]
  {
    assert s[..i + 1] == s[..i] + [s[i]];
  }

  /** Appending a step keeps the earlier values and grows the last ones by the new step. */
  lemma ValuesAppend(steps: seq<StepReturns>, next: StepReturns, i: nat)
    requires |steps| == i > 0
    ensures StrategyValue(steps + [next], i - 1) == StrategyValue(steps, i - 1)
    ensures BenchmarkValue(steps + [next], i - 1) == BenchmarkValue(steps, i - 1)
    ensures StrategyValue(steps + [next], i) == StrategyStep(StrategyValue(steps, i - 1), next.holdingRets)
    ensures BenchmarkValue(steps + [next], i) == Grow(BenchmarkValue(steps, i - 1), next.bmRet)
  {
    ValuesOfAppend(steps, next, i - 1);
  }

  /** Appending a step appends its point to the curve. */
  lemma CurveAppend(dates: seq<int>, steps: seq<StepReturns>, next: StepReturns, curve: seq<Point>,
                    portfolioValue: real, benchmarkValue: real)
    requires |steps| < |dates| && curve == Curve(dates, steps)
    requires portfolioValue == StrategyValue(steps + [next], |steps|)
    requires benchmarkValue == BenchmarkValue(steps + [next], |steps|)
    ensures curve + [Point(dates[|steps|], portfolioValue, benchmarkValue)] == Curve(dates, steps + [next])
  {
    var longer := Curve(dates, steps + [next]);
    var appended := curve + [Point(dates[|steps|], portfolioValue, benchmarkValue)];
    forall k | 0 <= k < |appended| ensures appended[k] == longer[k] {
      if k < |steps| {
        ValuesOfAppend(steps, next, k);
      }
    }
  }

  /** Appending a step keeps the values after every earlier step. */
  lemma {:induction false} ValuesOfAppend(steps: seq<StepReturns>, next: StepReturns, k: nat)
    requires k < |steps|
    ensures StrategyValue(steps + [next], k) == StrategyValue(steps, k)
    ensures BenchmarkValue(steps + [next], k) == BenchmarkValue(steps, k)
  {
    if k > 0 {
      assert (steps + [next])[k] == steps[k];
      ValuesOfAppend(steps, next, k - 1);
    }
  }

  /** Appending a step keeps the buckets after every earlier date. */
  lemma {:induction false} AnnualOfAppend(years: seq<int>, steps: seq<StepReturns>, next: StepReturns, n: nat)
    requires n <= |years| && n <= |steps|
    ensures Annual(years, steps + [next], n) == Annual(years, steps, n)
  {
    if n > 1 {
      AnnualOfAppend(years, steps, next, n - 1);
      ValuesOfAppend(steps, next, n - 1);
      ValuesOfAppend(steps, next, n - 2);
    }
  }

  /** Every close of every column of the table is positive. */
  predicate PositiveTable(prices: PriceTable)
  {
    forall c :: c in prices.columns ==> PositiveCloses(c.closes)
  }

  /** Every return a step applies is above minus one: no step wipes out an index. */
  predicate ReturnsAboveMinusOne(steps: seq<StepReturns>)
  {
    forall k :: 0 <= k < |steps| ==>
      && steps[k].bmRet > -1.0
      && forall j :: 0 <= j < |steps[k].holdingRets| ==> steps[k].holdingRets[j] > -1.0
  }

  /** With positive closes, a holding's period return is above minus one. */
  lemma HoldingReturnAboveMinusOne(prices: PriceTable, t: string, prev: int, curr: int)
    requires PositiveTable(prices)
    ensures HoldingReturn(prices, t, prev, curr).Some? ==> HoldingReturn(prices, t, prev, curr).value > -1.0
  {
    var col := ColumnOf(prices.columns, t);
    if col.Some? {
      var s := Observations(prices.index, col.value.closes);
      ObservationsPositive(prices.index, col.value.closes);
      var window := Between(s, prev, curr);
      var before := UpTo(s, prev);
      if |window| > 0 && |before| > 0 {
        assert window[|window| - 1] in s;
        var p0 := before[|before| - 1].price;
        if p0 > 0.0 {
          RatioAboveMinusOne(window[|window| - 1].price, p0);
        }
      }
    }
  }

  /**
   * `port_rets` holds, in holding order, exactly the returns of the holdings that are not
   * skipped: each entry is some holding's return, every holding's return is an entry, and there
   * are at most as many entries as holdings.
   */
  lemma {:induction false} PeriodReturnsCorrect(prices: PriceTable, holdings: seq<string>, prev: int, curr: int)
    ensures |PeriodReturns(prices, holdings, prev, curr)| <= |holdings|
    ensures forall x :: x in PeriodReturns(prices, holdings, prev, curr) ==>
              exists t :: t in holdings && HoldingReturn(prices, t, prev, curr) == Some(x)
    ensures forall t :: t in holdings && HoldingReturn(prices, t, prev, curr).Some? ==>
              HoldingReturn(prices, t, prev, curr).value in PeriodReturns(prices, holdings, prev, curr)
  {
    if holdings != [] {
      var init := holdings[..|holdings| - 1];
      var last := holdings[|holdings| - 1];
      PeriodReturnsCorrect(prices, init, prev, curr);
      assert holdings == init + [last];
      forall t | t in holdings && HoldingReturn(prices, t, prev, curr).Some?
        ensures HoldingReturn(prices, t, prev, curr).value in PeriodReturns(prices, holdings, prev, curr)
      {
        if t != last {
          assert t in init;
        }
      }
    }
  }

  /** With positive closes, every return in `port_rets` is above minus one. */
  lemma {:induction false} PeriodReturnsAboveMinusOne(prices: PriceTable, holdings: seq<string>, prev: int, curr: int)
    requires PositiveTable(prices)
    ensures forall j :: 0 <= j < |PeriodReturns(prices, holdings, prev, curr)| ==>
              PeriodReturns(prices, holdings, prev, curr)[j] > -1.0
  {
    PeriodReturnsCorrect(prices, holdings, prev, curr);
    var rets := PeriodReturns(prices, holdings, prev, curr);
    forall j | 0 <= j < |rets| ensures rets[j] > -1.0 {
      var x := rets[j];
      assert x in PeriodReturns(prices, holdings, prev, curr);
      var t :| t in holdings && HoldingReturn(prices, t, prev, curr) == Some(x);
      HoldingReturnAboveMinusOne(prices, t, prev, curr);
    }
  }

  /** With a positive benchmark and positive closes, every step's returns are above minus one. */
  lemma StepsAboveMinusOne(inp: Inputs, dates: seq<int>)
    requires PositiveSeries(inp.bench) && PositiveTable(inp.prices)
    ensures ReturnsAboveMinusOne(Steps(inp, dates))
  {
    var steps := Steps(inp, dates);
    forall k | 0 <= k < |steps|
      ensures forall j :: 0 <= j < |steps[k].holdingRets| ==> steps[k].holdingRets[j] > -1.0
    {
      if k > 0 {
        PeriodReturnsAboveMinusOne(inp.prices, Holdings(inp, dates, k - 1), dates[k - 1], dates[k]);
      }
    }
  }

  /** Returns above minus one keep both index values positive. */
  lemma {:induction false} ValuesPositive(steps: seq<StepReturns>, i: nat)
    requires i < |steps| && ReturnsAboveMinusOne(steps)
    ensures StrategyValue(steps, i) > 0.0 && BenchmarkValue(steps, i) > 0.0
  {
    if i > 0 {
      ValuesPositive(steps, i - 1);
      var rets := steps[i].holdingRets;
      if rets != [] {
        MeanAbove(rets, -1.0);
        ProductPositive(StrategyValue(steps, i - 1), 1.0 + Mean(rets));
      }
      ProductPositive(BenchmarkValue(steps, i - 1), 1.0 + steps[i].bmRet);
    }
  }

  /**
   * The curve of a backtest: one point per rebalance date, in date order and one per ISO week,
   * starting at the index base.
   */
  lemma BacktestCurve(inp: Inputs)
    requires Valid(inp)
    ensures var dates := RebalanceDates(inp.prices.index);
            var curve := Curve(dates, Steps(inp, dates));
            && |curve| == |dates|
            && (forall k :: 0 <= k < |curve| ==> curve[k].date == dates[k])
            && (forall j, k :: 0 <= j < k < |curve| ==> curve[j].date < curve[k].date)
            && (forall j, k :: 0 <= j < k < |curve| ==> IsoWeek(curve[j].date) < IsoWeek(curve[k].date))
            && (|curve| > 0 ==> curve[0].strategy == INITIAL_CAPITAL && curve[0].benchmark == INITIAL_CAPITAL)
  {
    RebalanceDatesCorrect(inp.prices.index);
  }

  /** With positive closes, every value of the curve is positive. */
  lemma BacktestCurvePositive(inp: Inputs)
    requires Valid(inp) && PositiveTable(inp.prices)
    ensures var dates := RebalanceDates(inp.prices.index);
            var curve := Curve(dates, Steps(inp, dates));
            forall k :: 0 <= k < |curve| ==> curve[k].strategy > 0.0 && curve[k].benchmark > 0.0
  {
    var dates := RebalanceDates(inp.prices.index);
    var steps := Steps(inp, dates);
    StepsAboveMinusOne(inp, dates);
    forall k | 0 <= k < |steps| ensures StrategyValue(steps, k) > 0.0 && BenchmarkValue(steps, k) > 0.0 {
      ValuesPositive(steps, k);
    }
  }

  /** Step `k` is the first step (from 1) whose date falls in year `y`. */
  ghost predicate FirstStepOfYear(years: seq<int>, k: nat, y: int)
    requires k < |years|
  {
    1 <= k && years[k] == y && forall j :: 1 <= j < k ==> years[j] != y
  }

  /** Step `k` is the last step before `n` whose date falls in year `y`. */
  ghost predicate LastStepOfYear(years: seq<int>, k: nat, n: nat, y: int)
    requires k < n <= |years|
  {
    1 <= k && years[k] == y && forall j :: k < j < n ==> years[j] != y
  }

  /**
   * Step `n - 1` records its year: the bucket of that year ends at the values after the step and
   * starts where it started before, or, when the year is new, at the values from before the step.
   * The other years keep their buckets, and no year gets two.
   */
  lemma AnnualStep(years: seq<int>, steps: seq<StepReturns>, n: nat)
    requires 2 <= n <= |years| && n <= |steps|
    ensures var y := years[n - 1];
            var before := Find(Annual(years, steps, n - 1), y);
            var after := Find(Annual(years, steps, n), y);
            && after.Some?
            && after.value.portEnd == StrategyValue(steps, n - 1)
            && after.value.bmEnd == BenchmarkValue(steps, n - 1)
            && (before.Some? ==> after.value.portStart == before.value.portStart
                                 && after.value.bmStart == before.value.bmStart)
            && (before.None? ==> after.value.portStart == StrategyValue(steps, n - 2)
                                 && after.value.bmStart == BenchmarkValue(steps, n - 2))
    ensures forall z :: z != years[n - 1] ==> Find(Annual(years, steps, n), z) == Find(Annual(years, steps, n - 1), z)
    ensures DistinctYears(Annual(years, steps, n - 1)) ==> DistinctYears(Annual(years, steps, n))
  {
    var m := Annual(years, steps, n - 1);
    var y := years[n - 1];
    var found := Find(m, y);
    var start := if found.Some? then found.value
                 else Bucket(StrategyValue(steps, n - 2), BenchmarkValue(steps, n - 2), 0.0, 0.0);
    var b := start.(portEnd := StrategyValue(steps, n - 1), bmEnd := BenchmarkValue(steps, n - 1));
    StoreFind(m, y, b);
    if DistinctYears(m) {
      StoreDistinct(m, y, b);
    }
  }

  /** The buckets after the first `n` years are those of exactly the years of steps 1 to n - 1. */
  lemma {:induction false} AnnualYears(years: seq<int>, steps: seq<StepReturns>, n: nat)
    requires n <= |years| && n <= |steps|
    ensures forall y :: Find(Annual(years, steps, n), y).Some? <==> exists k :: 1 <= k < n && years[k] == y
  {
    if n > 1 {
      AnnualYears(years, steps, n - 1);
      AnnualStep(years, steps, n);
      var m := Annual(years, steps, n - 1);
      var a := Annual(years, steps, n);
      forall y ensures Find(a, y).Some? <==> exists k :: 1 <= k < n && years[k] == y {
        if y == years[n - 1] {
          assert 1 <= n - 1 < n && years[n - 1] == y;
        } else {
          assert Find(a, y) == Find(m, y);
          if exists k :: 1 <= k < n && years[k] == y {
            var k :| 1 <= k < n && years[k] == y;
            assert 1 <= k < n - 1;
          }
        }
      }
    }
  }

  /** No year has two buckets. */
  lemma {:induction false} AnnualDistinct(years: seq<int>, steps: seq<StepReturns>, n: nat)
    requires n <= |years| && n <= |steps|
    ensures DistinctYears(Annual(years, steps, n))
  {
    if n > 1 {
      AnnualDistinct(years, steps, n - 1);
      AnnualStep(years, steps, n);
    }
  }

  /** A year's start values are the values from before its first step. */
  lemma {:induction false} AnnualStarts(years: seq<int>, steps: seq<StepReturns>, n: nat)
    requires n <= |years| && n <= |steps|
    ensures forall y :: Find(Annual(years, steps, n), y).Some? ==>
              exists k :: 1 <= k < n && FirstStepOfYear(years, k, y)
                          && Find(Annual(years, steps, n), y).value.portStart == StrategyValue(steps, k - 1)
                          && Find(Annual(years, steps, n), y).value.bmStart == BenchmarkValue(steps, k - 1)
  {
    if n > 1 {
      AnnualStarts(years, steps, n - 1);
      AnnualYears(years, steps, n - 1);
      var m := Annual(years, steps, n - 1);
      var a := Annual(years, steps, n);
      var y0 := years[n - 1];
      AnnualStep(years, steps, n);
      forall y | Find(a, y).Some?
        ensures exists k :: 1 <= k < n && FirstStepOfYear(years, k, y)
                            && Find(a, y).value.portStart == StrategyValue(steps, k - 1)
                            && Find(a, y).value.bmStart == BenchmarkValue(steps, k - 1)
      {
        if Find(m, y).Some? {
          var k :| 1 <= k < n - 1 && FirstStepOfYear(years, k, y)
                   && Find(m, y).value.portStart == StrategyValue(steps, k - 1)
                   && Find(m, y).value.bmStart == BenchmarkValue(steps, k - 1);
          assert Find(a, y).value.portStart == Find(m, y).value.portStart;
          assert Find(a, y).value.bmStart == Find(m, y).value.bmStart;
        } else {
          assert FirstStepOfYear(years, n - 1, y);
        }
      }
    }
  }

  /** A year's end values are the values after its last step so far. */
  lemma {:induction false} AnnualEnds(years: seq<int>, steps: seq<StepReturns>, n: nat)
    requires n <= |years| && n <= |steps|
    ensures forall y :: Find(Annual(years, steps, n), y).Some? ==>
              exists k :: 1 <= k < n && LastStepOfYear(years, k, n, y)
                          && Find(Annual(years, steps, n), y).value.portEnd == StrategyValue(steps, k)
                          && Find(Annual(years, steps, n), y).value.bmEnd == BenchmarkValue(steps, k)
  {
    if n > 1 {
      AnnualEnds(years, steps, n - 1);
      var m := Annual(years, steps, n - 1);
      var a := Annual(years, steps, n);
      var y0 := years[n - 1];
      AnnualStep(years, steps, n);
      forall y | Find(a, y).Some?
        ensures exists k :: 1 <= k < n && LastStepOfYear(years, k, n, y)
                            && Find(a, y).value.portEnd == StrategyValue(steps, k)
                            && Find(a, y).value.bmEnd == BenchmarkValue(steps, k)
      {
        if y == y0 {
          assert LastStepOfYear(years, n - 1, n, y);
        } else {
          assert Find(a, y) == Find(m, y);
          var k :| 1 <= k < n - 1 && LastStepOfYear(years, k, n - 1, y)
                   && Find(m, y).value.portEnd == StrategyValue(steps, k)
                   && Find(m, y).value.bmEnd == BenchmarkValue(steps, k);
          assert LastStepOfYear(years, k, n, y);
        }
      }
    }
  }

  /**
   * Line 270 as written: `portfolio_value / (1 + avg_ret if port_rets else 1)`. Here `port_rets`
   * and `avg_ret` hold whatever the loop last assigned to them, which is an earlier step's
   * returns when this step had no holdings. `lastRets` is `None` when `port_rets` was never
   * assigned. Python then raises `UnboundLocalError`, and the result is `None`, as it is for a
   * division by zero.
   */
  function PortStartAsWritten(portfolioValue: real, lastRets: Option<seq<real>>): (r: Option<real>)
    ensures lastRets.None? ==> r.None?
    ensures lastRets == Some([]) ==> r == Some(portfolioValue)
  {
    match lastRets
    case None => None
    case Some(rets) =>
      if rets == [] then Some(portfolioValue)
      else if 1.0 + Mean(rets) == 0.0 then None
      else Some(portfolioValue / (1.0 + Mean(rets)))
  }

  /**
   * When `port_rets` was assigned in the step being recorded, line 270 does give the value from
   * before the step.
   */
  lemma PortStartAsWrittenFresh(before: real, rets: seq<real>)
    requires rets != [] ==> Mean(rets) > -1.0
    ensures PortStartAsWritten(StrategyStep(before, rets), Some(rets)) == Some(before)
  {
    if rets != [] {
      var g := 1.0 + Mean(rets);
      assert StrategyStep(before, rets) == before * g;
      DivideOutGrowth(before, g);
    }
  }

  /**
   * When the holdings picked on the first date are empty, `port_rets` is unassigned at the first
   * step, and line 270 raises. The intended start value there is the index base.
   */
  lemma PortStartUnboundOnFirstStep()
    ensures var dates := [0, 7];
            var steps := [StepReturns([], 0.0), StepReturns([], 0.0)];
            && PortStartAsWritten(StrategyValue(steps, 1), None).None?
            && Find(Annual(YearsOf(dates), steps, 2), Year(dates[1])) == Some(Bucket(INITIAL_CAPITAL, INITIAL_CAPITAL, INITIAL_CAPITAL, INITIAL_CAPITAL))
  {
  }

  /**
   * A step without holdings that opens a new year divides by a stale `1 + avg_ret`: after a
   * step earning 10% the value is 110, the next step has no holdings, and line 270 records 100
   * instead of 110 as the new year's start.
   */
  lemma PortStartStale()
    ensures var steps := [StepReturns([], 0.0), StepReturns([0.1], 0.0), StepReturns([], 0.0)];
            && StrategyValue(steps, 1) == 110.0
            && StrategyValue(steps, 2) == 110.0
            && PortStartAsWritten(StrategyValue(steps, 2), Some(steps[1].holdingRets)) == Some(100.0)
  {
    var steps := [StepReturns([], 0.0), StepReturns([0.1], 0.0), StepReturns([], 0.0)];
    assert Mean([0.1]) == 0.1 by {
      assert [0.1][..0] == [];
    }
    assert StrategyValue(steps, 1) == Grow(100.0, 0.1) == 110.0;
  }

  /** A ratio of positive prices, minus one, is above minus one. */
  lemma RatioAboveMinusOne(p1: real, p0: real)
    requires p1 > 0.0 && p0 > 0.0
    ensures p1 / p0 - 1.0 > -1.0
  {
    assert p1 / p0 > 0.0;
  }

  lemma DivideOutGrowth(v: real, g: real)
    requires g > 0.0
    ensures (v * g) / g == v
  {
    var q := (v * g) / g;
    assert q * g == v * g;
    assert (q - v) * g == 0.0;
  }
}
