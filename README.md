# Swedish RSL screener and backtest — a Dafny model

swedish-rsl-screener ranks Swedish equities by two signals:

- **RSL (Relative Strength Levy):** the last close divided by the 130-day simple moving average.
- **Piotroski F-Score:** nine 0/1 tests on the annual financial statements.

It also backtests a weekly-rebalanced, equal-weight portfolio of the top 20 RSL names against a benchmark index.

This project models the algorithmic core of the three Python files:

- **backtest.py:**
  - the rebalance schedule (`get_rebalance_dates`);
  - point-in-time portfolio selection (`select_portfolio`);
  - the weekly simulation loop with its annual buckets (`run_backtest`);
  - the summary statistics (`compute_stats`).
- **screener.py:**
  - `_safe`, `compute_fscore` and `get_market_cap_sek`;
  - the per-ticker filters, the routing by F-Score, and the sorts and ranks of `compute_all`.
- **fetch_swedish_tickers.py:**
  - the ticker conversion `_sa_ticker_to_yf`;
  - the one-share-class-per-company choice `_deduplicate`.

Modules, one per file:

| module | what it holds |
|---|---|
| `Wrappers` | `Option` |
| `Numeric` | sums, means, variance |
| `Calendar` | ISO week and calendar year of a day number |
| `Prices` | the close table, the benchmark series, `dropna` and date windows |
| `StableSort` | Python's stable `sort(key=…, reverse=True)` as an insertion sort |
| `Buckets` | the `annual_returns` dictionary |
| `Schedule` | `get_rebalance_dates` |
| `Selection` | `select_portfolio` |
| `Simulator` | `run_backtest` |
| `Statistics` | `compute_stats` |
| `FScore` | `_safe`, `compute_fscore` |
| `Screener` | `get_market_cap_sek`, `compute_all` |
| `Tickers` | `_sa_ticker_to_yf`, `_deduplicate` |

Each loop of the source is a method with a `while` or `for` loop. The method is proved equal to a specification function. The properties the code promises are proved about that function as lemmas.

How the model represents the source's data:

- **Dates** are day numbers (days since 1970-01-01).
- **ISO week:** the pandas `(iso_year, iso_week)` pair is modelled as the number of Mondays since 1969-12-29. It identifies the same weeks and orders them the same way.
- **NaN** is `None`.
- **Floating point** is exact `real` arithmetic.
- **Market data:** the network calls of the screener arrive as a `Ticker` value. It records whether `info` or `history` raised, the reported market cap, the closes and the three statements.

Three points where the model's reading of the source needs a word:

- **Rebalance date.** The docstring at backtest.py:158-160 speaks of the last trading day of each week "that falls on or before Friday", and the `rebalance_weekday` parameter is unused. The code at backtest.py:164-168 takes the last trading date of each ISO week, whatever its weekday, from the cutoff on. The model follows the code.
- **Sharpe ratio.** The model keeps the code's guards at backtest.py:338-343: 0 for fewer than two weekly returns or a zero standard deviation.
- **Annual start value.** Line 270 of backtest.py does not always give the value before the year's first step. The model uses that value (see "## Findings").

## Model

| member | source | states |
|---|---|---|
| Schedule.RebalanceDatesCorrect | backtest.py:157-169 | a date is scheduled iff it is the last index date of its ISO week and not before `price_index[RSL_PERIOD + 10]`; the schedule is in strictly increasing weeks and dates |
| Schedule.OneDatePerWeek | backtest.py:164-165 | no two scheduled dates share an ISO week |
| Schedule.WeekEndsCorrect | backtest.py:164-165 | the group-by-week `last()` keeps exactly the last date of each week, in increasing weeks |
| Schedule.AtOrAfterCorrect | backtest.py:167-168 | the cutoff filter keeps exactly the dates at or after the cutoff, in order |
| Calendar.IsoWeekMonotone | backtest.py:164-165 | a later day never lies in an earlier ISO week |
| Prices.ClosesIgnoreLaterPrices | backtest.py:182-186 | a column's closes up to a date do not depend on any close dated after it |
| Selection.SelectPortfolio | backtest.py:176-206 | the loop returns the model selection, at most `top_n` tickers, each of an eligible column |
| Selection.RankColumn | backtest.py:185-203 | one column yields its (ticker, RSL) exactly when it passes the history, sector, market-cap and zero-SMA filters |
| Selection.EligibleOfSound | backtest.py:184-203 | every eligible entry comes from an eligible column and carries that column's RSL |
| Selection.EligibleOfComplete | backtest.py:184-203 | every eligible column has its entry |
| Selection.SelectionEligible | backtest.py:186-206 | every selected ticker passes every eligibility filter as of the date |
| Selection.SelectionRanked | backtest.py:205-206 | the selection is in non-increasing RSL order, has min(top_n, #eligible) entries, and no eligible column left out ranks above a selected one |
| Selection.SelectionKeepsEarliestTies | backtest.py:205-206 | among equal RSLs, the selected entries are the earliest eligible ones in column order (stable sort) |
| Selection.RslIgnoresEarlierCloses | backtest.py:198-202 | the RSL depends only on the last `period` closes |
| Selection.RslIgnoresLaterPrices | backtest.py:182-203 | eligibility and RSL as of a date do not depend on closes after it (no look-ahead) |
| Selection.ConstantPriceRslOne | backtest.py:198-202 | a constant price series has RSL 1 |
| StableSort.SortDescCorrect | backtest.py:205 | the sort is a permutation, in non-increasing key order, that keeps the input order among equal keys |
| StableSort.TakeKeepsEarliestTies | backtest.py:206 | cutting a stably sorted list keeps, for each key, a prefix of the elements with that key |
| Simulator.BenchmarkReturn | backtest.py:235-241 | the benchmark period return (two observations in the window, else both endpoints, else 0) is above -1 for a positive benchmark |
| Simulator.CollectReturns | backtest.py:246-260 | the holdings loop yields `port_rets` as the model defines it |
| Simulator.PeriodReturnsCorrect | backtest.py:246-260 | `port_rets` holds, in holding order, exactly the returns of holdings that are not skipped, no more entries than holdings |
| Simulator.PeriodReturnsAboveMinusOne | backtest.py:257-260 | with positive closes every holding return is above -1 |
| Simulator.ApplyPeriodReturns | backtest.py:234-264 | one step's returns, the strategy value grown by the mean return (unchanged without returns) and the benchmark grown by its return |
| Simulator.RecordYear | backtest.py:266-273 | the bucket of the step's year opens with the values from before the step when new, and its end values become the values after the step |
| Simulator.BenchmarkStart | backtest.py:271 | dividing the period growth back out of the new benchmark value gives the value before the step |
| Simulator.ApplyStep | backtest.py:231-273 | the state after a step: its returns, both index values and the buckets |
| Simulator.Rebalance | backtest.py:227-293 | one loop iteration keeps the loop invariant (steps, curve, buckets, previous date, values, holdings) |
| Simulator.RunBacktest | backtest.py:213-295 | the equity curve and the buckets are those of the model over the rebalance dates |
| Simulator.ValuesPositive | backtest.py:242-264 | returns above -1 keep both index values positive |
| Simulator.StepsAboveMinusOne | backtest.py:235-264 | with positive prices every step's returns are above -1 |
| Simulator.BacktestCurve | backtest.py:214-284 | one curve point per rebalance date, in date order, one per ISO week, starting at 100 |
| Simulator.BacktestCurvePositive | backtest.py:242-284 | with positive closes every curve value is positive |
| Simulator.AnnualStep | backtest.py:266-273 | a step updates its year's bucket (new start from before the step, or the old start) and no other year's |
| Simulator.AnnualYears | backtest.py:267-273 | the buckets are exactly the years of the steps after the first date |
| Simulator.AnnualDistinct | backtest.py:269 | no year has two buckets |
| Simulator.AnnualStarts | backtest.py:269-271 | a year starts at the values from before its first step |
| Simulator.AnnualEnds | backtest.py:272-273 | a year ends at the values after its last step |
| Simulator.PortStartAsWritten | backtest.py:270 | the as-written start value: undefined when `port_rets` was never assigned, the value itself when it is empty |
| Simulator.PortStartAsWrittenFresh | backtest.py:270 | when `port_rets` was assigned in this step, line 270 does give the value before the step |
| Simulator.PortStartUnboundOnFirstStep | backtest.py:245-270 | with no holdings picked on the first date, line 270 reads an unassigned `port_rets`, while the intended bucket starts at the index base 100 |
| Simulator.PortStartStale | backtest.py:262-270 | a step without holdings that opens a year divides by an earlier step's `1 + avg_ret` and records 100 instead of 110 |
| Buckets.StoreFind | backtest.py:269-273 | after `annual[y] = b`, `y` maps to `b` and every other year is unchanged |
| Buckets.StoreYears | backtest.py:269-273 | the assignment keeps entries in place and appends a new year at the end |
| Buckets.StoreTwice | backtest.py:270-273 | assigning a year twice keeps only the second value |
| Buckets.FindMember | backtest.py:356 | with distinct years, every entry is what its year looks up |
| Statistics.TotalReturnSign | backtest.py:310-311 | the total return is positive iff the last value is above the first, zero iff equal; from base 100 it is last minus 100 |
| Statistics.MaxDrawdown | backtest.py:319-328 | the loop gives the deepest drawdown in percent, at most 0, and 0 iff the values never fall |
| Statistics.WorstDrawdownSign | backtest.py:319-328 | the running maximum drawdown is never positive and is 0 iff the prefix never falls |
| Statistics.NonDecreasingExtend | backtest.py:322-327 | a prefix never falls iff the shorter prefix never falls and the new value is the running peak |
| Statistics.WeeklyReturnsCompound | backtest.py:334-335 | growing each value by the next weekly return gives the next value; with positive values each return is above -1 |
| Statistics.SharpeGuards | backtest.py:337-344 | the Sharpe ratio is 0 iff there are fewer than two returns or all are equal; otherwise its numerator is the mean excess return |
| Statistics.BeatsAppend | backtest.py:350 | each further week adds one to the count exactly when the strategy's return is strictly above the benchmark's |
| Statistics.BeatsCountsStrictWins | backtest.py:350 | all ties or losses give 0 wins; strict wins in every week count every week |
| Statistics.WinRate | backtest.py:351 | the win rate lies between 0 and 100 |
| Statistics.SortYears | backtest.py:355 | the years in strictly increasing order, the same set |
| Statistics.AnnualRowCompounds | backtest.py:358-364 | each annual return takes the start value to the end value, and alpha is their difference |
| Statistics.AnnualRowsCorrect | backtest.py:354-365 | one row per bucket year, in increasing year order, each computed from that year's bucket |
| Statistics.AnnualTable | backtest.py:354-365 | the loop builds the annual table of the model |
| Statistics.ComputeStats | backtest.py:302-379 | nothing exactly for an empty curve; otherwise the statistics, with drawdowns at most 0 (0 iff never falling) and a win rate in [0, 100] |
| Statistics.AnnualStartsPositive | backtest.py:269-271 | when no step wipes out an index, every bucket starts at positive values |
| Statistics.BacktestStatsDefined | backtest.py:302-365 | for a backtest over positive closes, every value `compute_stats` divides by is non-zero |
| FScore.FirstValue | screener.py:58-65 | the first alias with a value; none iff no alias has one |
| FScore.Safe | screener.py:50-66 | the alias loop returns the model value (NaN for a missing or empty frame) |
| FScore.SafeValueMissing | screener.py:56-66 | on a present non-empty frame, NaN iff no alias yields a value |
| FScore.Ratio | screener.py:130-143 | a ratio is defined iff both figures are and the denominator is non-zero, and then it times the denominator is the numerator |
| FScore.Accruals | screener.py:145 | the accruals are defined iff cash flow, assets (non-zero) and ROA are |
| FScore.ComputeFScore | screener.py:69-170 | the guards, the figures and the nine components give the model score and detail |
| FScore.ReadFigures | screener.py:103-124 | the seventeen `_safe` reads |
| FScore.FScoreCorrect | screener.py:89-167 | the score is None iff the statements lack two years (then no component is set); otherwise every component is 0 or 1 and the score, in 0..9, counts the passes |
| FScore.SumOfScored | screener.py:166 | summing 0/1 components counts the passing ones |
| FScore.MissingFiguresScoreZero | screener.py:130-164 | a component scores 0 when a figure it uses is NaN or a denominator it uses is 0 |
| FScore.UnchangedFigures | screener.py:156-164 | unchanged ratios fail the ROA, leverage, liquidity, margin and turnover tests; unchanged shares pass the dilution test |
| Screener.MarketCapSek | screener.py:177-181 | the cap is returned iff present and positive |
| Screener.Round4 | screener.py:256 | `round(x, 4)` lies within half a unit of the fourth decimal of `x` |
| Screener.Round4Monotone | screener.py:256 | rounding never reverses the order of two RSLs |
| Screener.ScreenCapFilter | screener.py:213-223 | a ticker is skipped for its cap iff the cap is known, positive and below 500M SEK |
| Screener.ScreenHistoryFilter | screener.py:241-252 | a ticker skipped for its history has fewer than `period` closes, and the entry records how many |
| Screener.ScreenRecord | screener.py:254-281 | a screened ticker has enough closes and a non-zero SMA; its record carries the rounded RSL and the F-Score, is unranked, and its F-Score alone picks its list |
| Screener.ClassifyCorrect | screener.py:276-281 | main list iff F-Score None or >= 5; watchlist iff 1..4; excluded iff below 1 |
| Screener.ExcludedScoreZero | screener.py:279-281 | an excluded ticker has F-Score exactly 0 |
| Screener.ScreenTicker | screener.py:209-288 | the loop body with its `continue`s gives the model outcome |
| Screener.ScoreTicker | screener.py:241-281 | the history checks, the record and the routing give the model outcome |
| Screener.RouteAllCorrect | screener.py:206-281 | each outcome lands in the list it names, and each list entry comes from such an outcome |
| Screener.RoutedCorrect | screener.py:206-288 | a record is in a list iff some ticker's outcome names that list with it |
| Screener.RoutedUnranked | screener.py:265-280 | the lists hold unranked records before sorting |
| Screener.MainFScore | screener.py:277-278 | every main-list record has F-Score None or >= 5 |
| Screener.WatchFScore | screener.py:279-280 | every watchlist candidate has F-Score 1..4 |
| Screener.AssignRanks | screener.py:294-295 | the rank loop numbers the records by position |
| Screener.AssignWatchRanks | screener.py:299-300 | the watchlist rank loop numbers the records by position |
| Screener.ComputeAll | screener.py:188-311 | results, watchlist and skipped are the sorted, cut and ranked lists of the model routing |
| Screener.ResultsCorrect | screener.py:293-295 | results: non-increasing RSL, ranked 1, 2, … by position; ranks aside, a stable permutation of the main list; every F-Score None or >= 5 |
| Screener.WatchlistCorrect | screener.py:297-300 | watchlist: min(3, #candidates) records of F-Score 1..4, ranked in RSL order, none left out above a kept one |
| Screener.TopRanked | screener.py:297-300 | the first n by RSL, ranked: sorted, numbered from 1, each a candidate, none left out above a kept one |
| Screener.SortedMembers | screener.py:293 | sorting keeps the same records in non-increasing RSL order |
| Screener.SkippedCorrect | screener.py:302 | skipped: a stable permutation in non-decreasing order of available days |
| Tickers.SaTickerToYfCorrect | fetch_swedish_tickers.py:43-56 | both branches give the ticker with '.' replaced by '-' plus ".ST": three characters longer, no '.' before ".ST", unchanged when it has no '.' |
| Tickers.JoinSplit | fetch_swedish_tickers.py:53-56 | joining the pieces of a split with '-' replaces every '.' by '-' |
| Tickers.SplitSingle | fetch_swedish_tickers.py:53-54 | a split gives one piece iff the separator does not occur |
| Tickers.RemovePublNoParen | fetch_swedish_tickers.py:157 | a name without '(' has no "(publ" marker to remove |
| Tickers.BaseNameNoParen | fetch_swedish_tickers.py:157 | for such a name the base name is the stripped name |
| Tickers.FindEnding | fetch_swedish_tickers.py:170-173 | the inner loop returns the first variant with the suffix |
| Tickers.FirstEndingCorrect | fetch_swedish_tickers.py:170-173 | the found variant is the earliest with the suffix; none found iff none has it |
| Tickers.ChooseVariant | fetch_swedish_tickers.py:168-178 | the priority loops and the fallback choose the model row |
| Tickers.Append | fetch_swedish_tickers.py:158 | `by_company[base].append(row)` on an insertion-ordered dict |
| Tickers.AddRowAt | fetch_swedish_tickers.py:154-158 | the append extends the company's group in place, or adds a new group at the end |
| Tickers.GroupRows | fetch_swedish_tickers.py:156-158 | the grouping loop builds the model groups |
| Tickers.GroupsCorrect | fetch_swedish_tickers.py:154-158 | one group per company in order of first appearance, each holding exactly its rows, in input order |
| Tickers.GroupsDistinct | fetch_swedish_tickers.py:154-158 | no company has two groups |
| Tickers.Deduplicate | fetch_swedish_tickers.py:151-182 | `_deduplicate` returns the model result |
| Tickers.DeduplicatedCorrect | fetch_swedish_tickers.py:151-182 | one row per company in order of first appearance, each an input row of that company chosen by the priority rule, never more rows than went in |
| Tickers.FirstAppearancesMembers | fetch_swedish_tickers.py:163 | the companies, each once, no more than the rows |
| Tickers.BySuffixFirst | fetch_swedish_tickers.py:169-175 | the choice uses the earliest priority suffix that some variant ends with |
| Tickers.BySuffixNone | fetch_swedish_tickers.py:169-177 | nothing is chosen by suffix iff no variant ends with any priority suffix |
| Tickers.PickCorrect | fetch_swedish_tickers.py:160-178 | with a priority suffix: the first row with the earliest such suffix; without: the first row |
| Tickers.PickSingle | fetch_swedish_tickers.py:164-166 | a company with a single row keeps it |
| Tickers.SdbCountsAsB | fetch_swedish_tickers.py:160-173 | "-SDB.ST" also ends with "B.ST", so an SDB share wins over an A share |
| Tickers.SaTickerToYf | fetch_swedish_tickers.py:43-56 | no contract of its own; properties in Tickers.SaTickerToYfCorrect |
| Tickers.BaseName | fetch_swedish_tickers.py:157 | no contract of its own; properties in Tickers.BaseNameNoParen and Tickers.DeduplicatedCorrect |
| Tickers.Pick | fetch_swedish_tickers.py:164-178 | no contract of its own; properties in Tickers.PickCorrect and Tickers.PickSingle |
| Tickers.Deduplicated | fetch_swedish_tickers.py:151-182 | no contract of its own; properties in Tickers.DeduplicatedCorrect |
| Screener.Screen | screener.py:209-288 | no contract of its own; properties in Screener.ScreenCapFilter, Screener.ScreenHistoryFilter and Screener.ScreenRecord |
| FScore.FScoreOf | screener.py:89-170 | no contract of its own; properties in FScore.FScoreCorrect |
| FScore.DetailOf | screener.py:130-164 | no contract of its own; properties in FScore.DetailScored, FScore.MissingFiguresScoreZero and FScore.UnchangedFigures |
| Selection.Ranking | backtest.py:182-206 | no contract of its own; properties in Selection.SelectionEligible, Selection.SelectionRanked and Selection.SelectionKeepsEarliestTies |
| Selection.Selection | backtest.py:182-206 | no contract of its own; properties in Selection.SelectionEligible and Selection.SelectionRanked |
| Schedule.RebalanceDates | backtest.py:162-169 | no contract of its own; properties in Schedule.RebalanceDatesCorrect |
| Simulator.HoldingReturn | backtest.py:248-260 | no contract of its own; properties in Simulator.PeriodReturnsCorrect and Simulator.HoldingReturnAboveMinusOne |
| Simulator.HoldingReturnAboveMinusOne | backtest.py:251-260 | with positive closes a holding's period return, when defined, is above -1 |
| Simulator.Annual | backtest.py:266-273 | no contract of its own; properties in Simulator.AnnualStep, Simulator.AnnualYears, Simulator.AnnualStarts and Simulator.AnnualEnds |
| Statistics.Sharpe | backtest.py:337-344 | a Sharpe value is produced only for two or more returns with positive variance; the guards themselves in Statistics.SharpeGuards |
| Statistics.Beats | backtest.py:350 | the count is at most the number of weeks; per-week rule in Statistics.BeatsAppend |
| Statistics.StatsOf | backtest.py:302-379 | no contract of its own; properties in Statistics.ComputeStats |

## Left out

- Network and files:
  - every network call (yfinance, stockanalysis.com scraping) and every file read or write (the JSON outputs, `prev_ranks.json`);
  - printing and `time.sleep`.
  - None of these are part of this model.
- `download_all_prices`, `download_benchmark`, `fetch_metadata`, `get_tickers`, `_scrape_page`, `_fix_encoding`, `load_prev_ranks`, `save_prev_ranks` and both `main` functions: I/O around the core; not part of this model.
- Exceptions:
  - an exception raised by `stock.info` or `stock.history` is an input flag of the ticker;
  - one raised while reading a statement is that statement being missing; the F-Score outcome is the same;
  - the exception text in the reason of a skipped entry is left out (`Failed` only).
- Screener.ScreenTicker: a zero moving average raises `ZeroDivisionError` inside the `try`. It is modelled as a `Failed` skip with 0 days.
- Screener.RecordOf: the record keeps price, SMA and market cap unrounded. The display rounding `round(…, 2)` and `round(mcap / 1e6)` is left out; only the RSL, which is the sort key, is rounded.
- Simulator.CurvePoint: the equity curve holds the exact index values. The `round(value, 4)` of the JSON output is left out. So Statistics.ComputeStats reads unrounded values.
- Statistics.ComputeStats:
  - the CAGR (a real power) is left out;
  - the display rounding of every figure is left out;
  - it requires positive curve values and non-zero bucket starts. This is stronger than the source, which raises `ZeroDivisionError` only on a zero first value, peak or previous value (backtest.py:310, 325, 334) or a zero bucket start (:358-359) and accepts negative values. Statistics.BacktestStatsDefined shows that a backtest over positive closes meets these requirements.
- Statistics.Sharpe: it returns the mean and the variance of the excess returns instead of `mean / std * sqrt(52)`, because a square root is not exact in real arithmetic. Its zero guards are modelled exactly.
- Floating point:
  - arithmetic is exact on `real`, so overflow and rounding errors are not modelled;
  - `round(x, 4)` is round-half-even on the exact value.
- Simulator.RunBacktest requires:
  - an index longer than `RSL_PERIOD + 10` (the source raises `IndexError`);
  - an index in increasing date order;
  - positive benchmark levels (a zero level would give an infinite return).
- Selection.SelectPortfolio and Screener.ComputeAll require `period >= 1`; both callers use 130.
- Selection.SelectPortfolio: with duplicate column labels, `hist[col]` and `prices[ticker]` in the source return a frame of every column with that label, and `float(series.iloc[-1])` (backtest.py:198, 257) then raises an uncaught `TypeError`. The model does not capture that failure: Prices.ColumnOf reads the first column of that name.
- Tickers.BaseName has two simplifications:
  - `\s` and `str.strip()` are the ten ASCII whitespace characters: space, `\t`, `\n`, `\r`, `\v`, `\f` and `\x1c`-`\x1f`; non-ASCII whitespace such as `\xa0` is not modelled;
  - `re.IGNORECASE` is modelled for the letters of "publ" only.
- Tickers.Split covers only the one-character separator of `str.split(".")`.

## Findings

| source | as written | input that shows it | evidently intended | confidence | as-written member | corrected member |
|---|---|---|---|---|---|---|
| backtest.py:270 | `port_start` divides the value by `1 + avg_ret if port_rets else 1`. `port_rets` and `avg_ret` keep whatever an earlier step assigned, and they are never assigned when the first holdings are empty | first date picks no holdings, second date opens a year → `UnboundLocalError`; or a +10% step, then a step without holdings that opens a new year → start 100 instead of 110 | the year starts at the strategy value from before its first step | not executed | Simulator.PortStartAsWritten (Simulator.PortStartUnboundOnFirstStep, Simulator.PortStartStale) | Simulator.RecordYear (Simulator.AnnualStarts) |
