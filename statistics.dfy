/**
 * Summary statistics of a backtest (`compute_stats` in backtest.py): total return, maximum
 * drawdown, weekly returns, the Sharpe ratio's guards, the win rate and the annual table.
 */
module Statistics {
  import opened Wrappers
  import opened Numeric
  import opened Buckets
  import opened Simulator
  import Schedule

  /** One row of the annual table, in percent. */
  datatype AnnualRow = AnnualRow(year: int, portfolio: real, benchmark: real, alpha: real)

  /**
   * `sharpe(weekly_rets)`: `NoSharpe` where the source returns 0 (fewer than two returns, or a
   * zero standard deviation); otherwise the mean and the variance of the excess returns, from
   * which the source computes `mean / sqrt(variance) * sqrt(52)`.
   */
  datatype SharpeValue = NoSharpe | SharpeOf(mean: real, variance: real)

  datatype Stats = Stats(portTotalReturn: real, bmTotalReturn: real,
                         portMaxDrawdown: real, bmMaxDrawdown: real,
                         portSharpe: SharpeValue, bmSharpe: SharpeValue,
                         winRatePct: real, nYears: real, annual: seq<AnnualRow>)

  /** `[p["portfolio"] for p in equity_curve]`. */
  function StrategyValues(curve: seq<Point>): (r: seq<real>)
    ensures |r| == |curve|
    ensures forall i :: 0 <= i < |curve| ==> r[i] == curve[i].strategy
  {
    seq(|curve|, i requires 0 <= i < |curve| => curve[i].strategy)
  }

  /** `[p["benchmark"] for p in equity_curve]`. */
  function BenchmarkValues(curve: seq<Point>): (r: seq<real>)
    ensures |r| == |curve|
    ensures forall i :: 0 <= i < |curve| ==> r[i] == curve[i].benchmark
  {
    seq(|curve|, i requires 0 <= i < |curve| => curve[i].benchmark)
  }

  predicate PositiveValues(vals: seq<real>)
  {
    forall i :: 0 <= i < |vals| ==> vals[i] > 0.0
  }

  predicate NonDecreasing(vals: seq<real>)
  {
    forall i, j :: 0 <= i < j < |vals| ==> vals[i] <= vals[j]
  }

  /** `(vals[-1] / vals[0] - 1) * 100`. */
  function TotalReturn(vals: seq<real>): real
    requires |vals| > 0 && vals[0] != 0.0
  {
    (vals[|vals| - 1] / vals[0] - 1.0) * 100.0
  }

  /**
   * The total return is positive exactly when the last value is above the first, and zero exactly
   * when they are equal. From the index base it is the last value minus 100.
   */
  lemma TotalReturnSign(vals: seq<real>)
    requires |vals| > 0 && vals[0] > 0.0
    ensures TotalReturn(vals) > 0.0 <==> vals[|vals| - 1] > vals[0]
    ensures TotalReturn(vals) == 0.0 <==> vals[|vals| - 1] == vals[0]
    ensures vals[0] == INITIAL_CAPITAL ==> TotalReturn(vals) == vals[|vals| - 1] - INITIAL_CAPITAL
  {
    var q := vals[|vals| - 1] / vals[0];
    assert q * vals[0] == vals[|vals| - 1];
    if q > 1.0 {
      assert q * vals[0] > vals[0] by {
        ProductPositive(q - 1.0, vals[0]);
      }
    } else if q < 1.0 {
      assert q * vals[0] < vals[0] by {
        ProductPositive(1.0 - q, vals[0]);
      }
    }
  }

  /** The running peak `peak` of the loop in `max_drawdown` after it has seen `vals[i]`. */
  function Peak(vals: seq<real>, i: nat): (r: real)
    requires i < |vals|
    ensures forall j :: 0 <= j <= i ==> vals[j] <= r
    ensures exists j :: 0 <= j <= i && vals[j] == r
  {
    if i == 0 then vals[0]
    else
      var p := Peak(vals, i - 1);
      if vals[i] > p then vals[i] else p
  }

  /** `dd` at `vals[i]`: its fall below the running peak, as a fraction of the peak. */
  function Drawdown(vals: seq<real>, i: nat): real
    requires i < |vals| && vals[0] > 0.0
  {
    var p := Peak(vals, i);
    (vals[i] - p) / p
  }

  /** `max_dd` after the first `n` values: the deepest drawdown seen, starting from 0. */
  function WorstDrawdown(vals: seq<real>, n: nat): real
    requires n <= |vals| && |vals| > 0 && vals[0] > 0.0
  {
    if n == 0 then 0.0
    else
      var w := WorstDrawdown(vals, n - 1);
      var d := Drawdown(vals, n - 1);
      if d < w then d else w
  }

  /** `max_drawdown(vals)`: the deepest drawdown, in percent. */
  method MaxDrawdown(vals: seq<real>) returns (mdd: real)
    requires |vals| > 0 && vals[0] > 0.0
    ensures mdd == WorstDrawdown(vals, |vals|) * 100.0
    ensures mdd <= 0.0
    ensures mdd == 0.0 <==> NonDecreasing(vals)
  {
    var peak := vals[0];
    var maxDd := 0.0;
    for i := 0 to |vals|
      invariant peak == if i == 0 then vals[0] else Peak(vals, i - 1)
      invariant maxDd == WorstDrawdown(vals, i)
    {
      var v := vals[i];
      if v > peak {
        peak := v;
      }
      var dd := (v - peak) / peak;
      if dd < maxDd {
        maxDd := dd;
      }
    }
    mdd := maxDd * 100.0;
    WorstDrawdownSign(vals, |vals|);
    assert vals[..|vals|] == vals;
  }

  /**
   * The deepest drawdown over the first `n` values is never positive, and it is zero exactly when
   * those values never fall.
   */
  lemma {:induction false} WorstDrawdownSign(vals: seq<real>, n: nat)
    requires n <= |vals| && |vals| > 0 && vals[0] > 0.0
    ensures WorstDrawdown(vals, n) <= 0.0
    ensures WorstDrawdown(vals, n) == 0.0 <==> NonDecreasing(vals[..n])
  {
    if n > 0 {
      WorstDrawdownSign(vals, n - 1);
      var k := n - 1;
      DrawdownSign(vals[k], Peak(vals, k));
      NonDecreasingExtend(vals, k);
    }
  }

  /** The first `k + 1` values never fall exactly when the first `k` never fall and `vals[k]` is a peak. */
  lemma NonDecreasingExtend(vals: seq<real>, k: nat)
    requires k < |vals|
    ensures NonDecreasing(vals[..k + 1]) <==> NonDecreasing(vals[..k]) && vals[k] == Peak(vals, k)
  {
    var p := Peak(vals, k);
    var pre, cur := vals[..k], vals[..k + 1];
    assert forall i :: 0 <= i < k ==> pre[i] == cur[i] == vals[i];
    assert cur[k] == vals[k];
    if NonDecreasing(pre) && vals[k] == p {
      forall i, j | 0 <= i < j <= k ensures cur[i] <= cur[j] {
        if j == k {
          assert vals[i] <= p;
        }
      }
    }
    if NonDecreasing(cur) {
      var j :| 0 <= j <= k && vals[j] == p;
      assert cur[j] <= cur[k];
    }
  }

  /** A value at or below a positive peak has a non-positive drawdown, zero only at the peak. */
  lemma DrawdownSign(v: real, p: real)
    requires p > 0.0 && v <= p
    ensures (v - p) / p <= 0.0
    ensures (v - p) / p == 0.0 <==> v == p
  {
    var d := (v - p) / p;
    assert d * p == v - p;
    if d > 0.0 {
      ProductPositive(d, p);
    }
  }

  /** `[vals[i] / vals[i-1] - 1 for i in range(1, len(vals))]`. */
  function WeeklyReturns(vals: seq<real>): (r: seq<real>)
    requires forall i :: 0 <= i < |vals| - 1 ==> vals[i] != 0.0
    ensures |r| == if |vals| == 0 then 0 else |vals| - 1
  {
    if |vals| <= 1 then []
    else seq(|vals| - 1, i requires 0 <= i < |vals| - 1 => vals[i + 1] / vals[i] - 1.0)
  }

  /**
   * Growing each value by the following week's return gives the next value, and with positive
   * values every weekly return is above minus one.
   */
  lemma WeeklyReturnsCompound(vals: seq<real>)
    requires PositiveValues(vals)
    ensures forall i :: 0 <= i < |WeeklyReturns(vals)| ==> Grow(vals[i], WeeklyReturns(vals)[i]) == vals[i + 1]
    ensures forall i :: 0 <= i < |WeeklyReturns(vals)| ==> WeeklyReturns(vals)[i] > -1.0
  {
    var r := WeeklyReturns(vals);
    forall i | 0 <= i < |r| ensures Grow(vals[i], r[i]) == vals[i + 1] && r[i] > -1.0 {
      var q := vals[i + 1] / vals[i];
      assert r[i] == q - 1.0;
      assert vals[i] * q == vals[i + 1];
      RatioAboveMinusOne(vals[i + 1], vals[i]);
    }
  }

  /** `sharpe(weekly_rets, rf)`, up to its final `mean / std * sqrt(52)`. */
  function Sharpe(weekly: seq<real>, rf: real): (r: SharpeValue)
    ensures r.SharpeOf? ==> |weekly| >= 2 && r.variance > 0.0
  {
    if |weekly| < 2 then NoSharpe
    else
      var excess := Shift(weekly, rf / 52.0);
      VarianceZero(excess);
      if Variance(excess) == 0.0 then NoSharpe
      else SharpeOf(Mean(excess), Variance(excess))
  }

  /**
   * The Sharpe ratio is left at 0 exactly when there are fewer than two weekly returns or all of
   * them are equal; otherwise its mean is the mean excess return.
   */
  lemma SharpeGuards(weekly: seq<real>, rf: real)
    ensures Sharpe(weekly, rf).NoSharpe? <==> |weekly| < 2 || AllEqual(weekly)
    ensures Sharpe(weekly, rf).SharpeOf? ==> Sharpe(weekly, rf).mean == Mean(Shift(weekly, rf / 52.0))
  {
    if |weekly| >= 2 {
      var excess := Shift(weekly, rf / 52.0);
      VarianceZero(excess);
      assert AllEqual(excess) <==> AllEqual(weekly) by {
        if AllEqual(excess) {
          forall i | 0 <= i < |weekly| ensures weekly[i] == weekly[0] {
            assert excess[i] == excess[0];
          }
        }
      }
    }
  }

  /** `sum(1 for p, b in zip(port, bm) if p > b)`: the weeks the strategy strictly beat the benchmark. */
  function Beats(port: seq<real>, bm: seq<real>): (r: nat)
    ensures r <= |port| && r <= |bm|
  {
    if port == [] || bm == [] then 0
    else (if port[0] > bm[0] then 1 else 0) + Beats(port[1..], bm[1..])
  }

  /** A week where the strategy only ties or trails does not count as a win. */
  lemma {:induction false} BeatsCountsStrictWins(port: seq<real>, bm: seq<real>)
    ensures (forall i :: 0 <= i < |port| && i < |bm| ==> port[i] <= bm[i]) ==> Beats(port, bm) == 0
    ensures (forall i :: 0 <= i < |port| && i < |bm| ==> port[i] > bm[i]) ==> Beats(port, bm) == Min(|port|, |bm|)
  {
    if port != [] && bm != [] {
      BeatsCountsStrictWins(port[1..], bm[1..]);
      assert forall i :: 0 <= i < |port[1..]| && i < |bm[1..]| ==> port[1..][i] == port[i + 1] && bm[1..][i] == bm[i + 1];
    }
  }

  /** Each further week adds one to the count exactly when the strategy strictly beat the benchmark. */
  lemma {:induction false} BeatsAppend(port: seq<real>, bm: seq<real>, p: real, b: real)
    requires |port| == |bm|
    ensures Beats(port + [p], bm + [b]) == Beats(port, bm) + (if p > b then 1 else 0)
  {
    if port == [] {
      assert port + [p] == [p] && bm + [b] == [b];
    } else {
      assert (port + [p])[1..] == port[1..] + [p];
      assert (bm + [b])[1..] == bm[1..] + [b];
      BeatsAppend(port[1..], bm[1..], p, b);
    }
  }

  /** `beats / len(port_weekly) * 100 if port_weekly else 0`. */
  function WinRate(port: seq<real>, bm: seq<real>): (r: real)
    ensures 0.0 <= r <= 100.0
  {
    if port == [] then 0.0
    else
      var n := |port| as real;
      var b := Beats(port, bm) as real;
      assert b / n <= 1.0 by {
        assert (b / n) * n == b;
      }
      b / n * 100.0
  }

  /** `s` is in strictly increasing order. */
  predicate Increasing(s: seq<int>)
  {
    forall i, j :: 0 <= i < j < |s| ==> s[i] < s[j]
  }

  /** Puts `y` into the increasing sequence `s`, keeping it increasing and without duplicates. */
  function InsertYear(y: int, s: seq<int>): (r: seq<int>)
    requires Increasing(s)
    ensures Increasing(r)
    ensures forall z :: z in r <==> z == y || z in s
  {
    if s == [] then [y]
    else if y < s[0] then [y] + s
    else if y == s[0] then s
    else
      var t := InsertYear(y, s[1..]);
      assert forall i :: 0 <= i < |t| ==> t[i] in t;
      [s[0]] + t
  }

  /** `sorted(years)` for years without duplicates. */
  function SortYears(years: seq<int>): (r: seq<int>)
    ensures Increasing(r)
    ensures forall y :: y in r <==> y in years
  {
    if years == [] then []
    else
      var p := years[..|years| - 1];
      assert years == p + [years[|years| - 1]];
      InsertYear(years[|years| - 1], SortYears(p))
  }

  /** Each year's start values are non-zero, so its returns are defined. */
  predicate StartsNonZero(annual: seq<YearBucket>)
  {
    forall e :: e in annual ==> e.bucket.portStart != 0.0 && e.bucket.bmStart != 0.0
  }

  /** The row of one year: both returns over the year in percent, and their difference. */
  function AnnualRowOf(year: int, b: Bucket): AnnualRow
    requires b.portStart != 0.0 && b.bmStart != 0.0
  {
    var port := (b.portEnd / b.portStart - 1.0) * 100.0;
    var bm := (b.bmEnd / b.bmStart - 1.0) * 100.0;
    AnnualRow(year, port, bm, port - bm)
  }

  /** A row's returns take each index from its start to its end value, and alpha is their difference. */
  lemma AnnualRowCompounds(year: int, b: Bucket)
    requires b.portStart != 0.0 && b.bmStart != 0.0
    ensures Grow(b.portStart, AnnualRowOf(year, b).portfolio / 100.0) == b.portEnd
    ensures Grow(b.bmStart, AnnualRowOf(year, b).benchmark / 100.0) == b.bmEnd
    ensures AnnualRowOf(year, b).alpha == AnnualRowOf(year, b).portfolio - AnnualRowOf(year, b).benchmark
  {
    var r := AnnualRowOf(year, b);
    assert r.portfolio / 100.0 == b.portEnd / b.portStart - 1.0;
    assert r.benchmark / 100.0 == b.bmEnd / b.bmStart - 1.0;
    assert b.portStart * (b.portEnd / b.portStart) == b.portEnd;
    assert b.bmStart * (b.bmEnd / b.bmStart) == b.bmEnd;
  }

  /** The row of the `i`-th year of `years`, which must be a year of `annual`. */
  function RowAt(annual: seq<YearBucket>, years: seq<int>, i: nat): AnnualRow
    requires StartsNonZero(annual) && i < |years| && years[i] in Keys(annual)
  {
    var b := Find(annual, years[i]).value;
    assert YearBucket(years[i], b) in annual;
    AnnualRowOf(years[i], b)
  }

  /** The annual table: the rows of the years of `annual`, in year order. */
  function AnnualRows(annual: seq<YearBucket>): seq<AnnualRow>
    requires StartsNonZero(annual)
  {
    var years := SortYears(Keys(annual));
    assert forall i :: 0 <= i < |years| ==> years[i] in years;
    seq(|years|, i requires 0 <= i < |years| => RowAt(annual, years, i))
  }

  /**
   * The annual table holds exactly one row for each year of `annual`, in increasing year order,
   * each computed from that year's start and end values.
   */
  lemma AnnualRowsCorrect(annual: seq<YearBucket>)
    requires StartsNonZero(annual)
    ensures forall i, j :: 0 <= i < j < |AnnualRows(annual)| ==> AnnualRows(annual)[i].year < AnnualRows(annual)[j].year
    ensures forall y :: Find(annual, y).Some? <==> exists i :: 0 <= i < |AnnualRows(annual)| && AnnualRows(annual)[i].year == y
    ensures forall i :: 0 <= i < |AnnualRows(annual)| ==>
              exists b :: YearBucket(AnnualRows(annual)[i].year, b) in annual
                          && b.portStart != 0.0 && b.bmStart != 0.0
                          && AnnualRows(annual)[i] == AnnualRowOf(AnnualRows(annual)[i].year, b)
  {
    AnnualRowsOrdered(annual);
    AnnualRowsYears(annual);
    AnnualRowsBuckets(annual);
  }

  /** The row years are the sorted years of `annual`. */
  lemma AnnualRowsYearAt(annual: seq<YearBucket>)
    requires StartsNonZero(annual)
    ensures |AnnualRows(annual)| == |SortYears(Keys(annual))|
    ensures forall i :: 0 <= i < |AnnualRows(annual)| ==> AnnualRows(annual)[i].year == SortYears(Keys(annual))[i]
  {
  }

  /** The rows are in strictly increasing year order. */
  lemma AnnualRowsOrdered(annual: seq<YearBucket>)
    requires StartsNonZero(annual)
    ensures forall i, j :: 0 <= i < j < |AnnualRows(annual)| ==> AnnualRows(annual)[i].year < AnnualRows(annual)[j].year
  {
    AnnualRowsYearAt(annual);
  }

  /** A year has a row exactly when it has a bucket. */
  lemma AnnualRowsYears(annual: seq<YearBucket>)
    requires StartsNonZero(annual)
    ensures forall y :: Find(annual, y).Some? <==> exists i :: 0 <= i < |AnnualRows(annual)| && AnnualRows(annual)[i].year == y
  {
    var years := SortYears(Keys(annual));
    var rows := AnnualRows(annual);
    AnnualRowsYearAt(annual);
    forall y | Find(annual, y).Some? ensures exists i :: 0 <= i < |rows| && rows[i].year == y {
      assert y in years;
      var i :| 0 <= i < |years| && years[i] == y;
      assert rows[i].year == y;
    }
    forall y | exists i :: 0 <= i < |rows| && rows[i].year == y ensures Find(annual, y).Some? {
      var i :| 0 <= i < |rows| && rows[i].year == y;
      assert years[i] in years;
    }
  }

  /** Each row is computed from its year's bucket. */
  lemma AnnualRowsBuckets(annual: seq<YearBucket>)
    requires StartsNonZero(annual)
    ensures forall i :: 0 <= i < |AnnualRows(annual)| ==>
              exists b :: YearBucket(AnnualRows(annual)[i].year, b) in annual
                          && b.portStart != 0.0 && b.bmStart != 0.0
                          && AnnualRows(annual)[i] == AnnualRowOf(AnnualRows(annual)[i].year, b)
  {
    var years := SortYears(Keys(annual));
    var rows := AnnualRows(annual);
    AnnualRowsYearAt(annual);
    forall i | 0 <= i < |rows|
      ensures exists b :: YearBucket(rows[i].year, b) in annual && b.portStart != 0.0 && b.bmStart != 0.0
                          && rows[i] == AnnualRowOf(rows[i].year, b)
    {
      assert years[i] in years;
      var b := Find(annual, years[i]).value;
      assert YearBucket(rows[i].year, b) in annual;
    }
  }

  /** The loop building `annual_table` over the sorted years. */
  method AnnualTable(annual: seq<YearBucket>) returns (table: seq<AnnualRow>)
    requires StartsNonZero(annual)
    ensures table == AnnualRows(annual)
  {
    var years := SortYears(Keys(annual));
    table := [];
    for i := 0 to |years|
      invariant table == AnnualRows(annual)[..i]
    {
      assert years[i] in years;
      var year := years[i];
      var d := Find(annual, year).value;
      assert YearBucket(year, d) in annual;
      var portRet := (d.portEnd / d.portStart - 1.0) * 100.0;
      var bmRet := (d.bmEnd / d.bmStart - 1.0) * 100.0;
      table := table + [AnnualRow(year, portRet, bmRet, portRet - bmRet)];
      assert AnnualRows(annual)[..i + 1] == AnnualRows(annual)[..i] + [RowAt(annual, years, i)];
    }
  }

  /** The statistics of a non-empty curve. */
  function StatsOf(curve: seq<Point>, annual: seq<YearBucket>): Stats
    requires |curve| > 0
    requires PositiveValues(StrategyValues(curve)) && PositiveValues(BenchmarkValues(curve))
    requires StartsNonZero(annual)
  {
    var port := StrategyValues(curve);
    var bm := BenchmarkValues(curve);
    Stats(TotalReturn(port), TotalReturn(bm),
          WorstDrawdown(port, |port|) * 100.0, WorstDrawdown(bm, |bm|) * 100.0,
          Sharpe(WeeklyReturns(port), 0.0), Sharpe(WeeklyReturns(bm), 0.0),
          WinRate(WeeklyReturns(port), WeeklyReturns(bm)),
          (|curve| as real) / 52.0,
          AnnualRows(annual))
  }

  /**
   * `compute_stats(equity_curve, annual_returns)`: nothing (`{}`) exactly for an empty curve;
   * otherwise the statistics, with both drawdowns at most zero (zero exactly for a curve that
   * never falls) and a win rate between 0 and 100.
   */
  method ComputeStats(curve: seq<Point>, annual: seq<YearBucket>) returns (stats: Option<Stats>)
    requires PositiveValues(StrategyValues(curve)) && PositiveValues(BenchmarkValues(curve))
    requires StartsNonZero(annual)
    ensures stats.None? <==> curve == []
    ensures stats.Some? ==> stats.value == StatsOf(curve, annual)
    ensures stats.Some? ==> && stats.value.portMaxDrawdown <= 0.0 && stats.value.bmMaxDrawdown <= 0.0
                            && (stats.value.portMaxDrawdown == 0.0 <==> NonDecreasing(StrategyValues(curve)))
                            && (stats.value.bmMaxDrawdown == 0.0 <==> NonDecreasing(BenchmarkValues(curve)))
                            && 0.0 <= stats.value.winRatePct <= 100.0
  {
    if curve == [] {
      return None;
    }
    var portVals := StrategyValues(curve);
    var bmVals := BenchmarkValues(curve);
    var portTotal := (portVals[|portVals| - 1] / portVals[0] - 1.0) * 100.0;
    var bmTotal := (bmVals[|bmVals| - 1] / bmVals[0] - 1.0) * 100.0;
    var nYears := (|curve| as real) / 52.0;
    var portMdd := MaxDrawdown(portVals);
    var bmMdd := MaxDrawdown(bmVals);
    var portWeekly := WeeklyReturns(portVals);
    var bmWeekly := WeeklyReturns(bmVals);
    var winRate := WinRate(portWeekly, bmWeekly);
    var table := AnnualTable(annual);
    stats := Some(Stats(portTotal, bmTotal, portMdd, bmMdd, Sharpe(portWeekly, 0.0), Sharpe(bmWeekly, 0.0),
                        winRate, nYears, table));
  }

  /** When no step wipes out an index, every year starts at positive values. */
  lemma AnnualStartsPositive(years: seq<int>, steps: seq<StepReturns>, n: nat)
    requires n <= |years| && n <= |steps| && ReturnsAboveMinusOne(steps)
    ensures forall e :: e in Annual(years, steps, n) ==> e.bucket.portStart > 0.0 && e.bucket.bmStart > 0.0
  {
    AnnualStarts(years, steps, n);
    AnnualDistinct(years, steps, n);
    var annual := Annual(years, steps, n);
    forall e | e in annual ensures e.bucket.portStart > 0.0 && e.bucket.bmStart > 0.0 {
      FindMember(annual, e);
      var k :| 1 <= k < n && FirstStepOfYear(years, k, e.year)
               && e.bucket.portStart == StrategyValue(steps, k - 1)
               && e.bucket.bmStart == BenchmarkValue(steps, k - 1);
      ValuesPositive(steps, k - 1);
    }
  }

  /** What `compute_stats` divides by is non-zero for every backtest over positive closes. */
  lemma BacktestStatsDefined(inp: Inputs)
    requires Valid(inp) && PositiveTable(inp.prices)
    ensures var dates := Schedule.RebalanceDates(inp.prices.index);
            var steps := Steps(inp, dates);
            var curve := Curve(dates, steps);
            && PositiveValues(StrategyValues(curve)) && PositiveValues(BenchmarkValues(curve))
            && StartsNonZero(Annual(YearsOf(dates), steps, |dates|))
  {
    var dates := Schedule.RebalanceDates(inp.prices.index);
    BacktestCurvePositive(inp);
    StepsAboveMinusOne(inp, dates);
    AnnualStartsPositive(YearsOf(dates), Steps(inp, dates), |dates|);
  }
}
