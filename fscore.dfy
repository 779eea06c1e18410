/**
 * The Piotroski F-Score of screener.py (`_safe` and `compute_fscore`). A yfinance statement
 * table is a `Frame`: its column count and, per row label, the row's cells, where `None` is NaN.
 * Column 0 is the current year and column 1 the prior year.
 */
module FScore {
  import opened Wrappers

  datatype Frame = Frame(width: nat, rows: map<string, seq<Option<real>>>)

  /** `df.empty`: no rows or no columns. */
  predicate Empty(f: Frame)
  {
    |f.rows| == 0 || f.width == 0
  }

  /** `df.loc[key].iloc[col]` when the label exists, the cell exists and is not NaN. */
  function Cell(f: Frame, key: string, col: nat): Option<real>
  {
    if key in f.rows && col < |f.rows[key]| then f.rows[key][col] else None
  }

  /** The value of the first alias that yields one. */
  function FirstValue(f: Frame, keys: seq<string>, col: nat): (r: Option<real>)
    ensures r.Some? ==> exists i :: 0 <= i < |keys| && Cell(f, keys[i], col) == r
                                    && forall j :: 0 <= j < i ==> Cell(f, keys[j], col).None?
    ensures r.None? <==> forall i :: 0 <= i < |keys| ==> Cell(f, keys[i], col).None?
  {
    if keys == [] then None
    else if Cell(f, keys[0], col).Some? then Cell(f, keys[0], col)
    else
      var r := FirstValue(f, keys[1..], col);
      assert forall i :: 1 <= i < |keys| ==> keys[i] == keys[1..][i - 1];
      r
  }

  /** `_safe(df, row_keys, col_idx)`: NaN for a missing or empty frame, else the first alias's value. */
  function SafeValue(df: Option<Frame>, keys: seq<string>, col: nat): Option<real>
  {
    if df.None? || Empty(df.value) then None else FirstValue(df.value, keys, col)
  }

  /** `_safe` as the source writes it: a loop over the aliases that returns at the first value. */
  method Safe(df: Option<Frame>, keys: seq<string>, col: nat) returns (r: Option<real>)
    ensures r == SafeValue(df, keys, col)
  {
    if df.None? || Empty(df.value) {
      return None;
    }
    var f := df.value;
    for i := 0 to |keys|
      invariant FirstValue(f, keys, col) == FirstValue(f, keys[i..], col)
    {
      assert keys[i..][0] == keys[i] && keys[i..][1..] == keys[i + 1..];
      if keys[i] in f.rows && col < |f.rows[keys[i]]| {
        var cell := f.rows[keys[i]][col];
        if cell.Some? {
          return cell;
        }
      }
    }
    return None;
  }

  /** `_safe` of a present, non-empty frame is `None` exactly when no alias yields a value. */
  lemma SafeValueMissing(f: Frame, keys: seq<string>, col: nat)
    ensures SafeValue(Some(f), keys, col).None? <==>
              Empty(f) || forall i :: 0 <= i < |keys| ==> Cell(f, keys[i], col).None?
  {
  }

  const NET_INCOME: seq<string> := ["Net Income", "NetIncome", "Net Income Common Stockholders"]
  const REVENUE: seq<string> := ["Total Revenue", "Revenue", "TotalRevenue"]
  const GROSS_PROFIT: seq<string> := ["Gross Profit", "GrossProfit"]
  const TOTAL_ASSETS: seq<string> := ["Total Assets", "TotalAssets"]
  const LONG_TERM_DEBT: seq<string> := ["Long Term Debt", "LongTermDebt", "Long-Term Debt"]
  const CURRENT_ASSETS: seq<string> := ["Current Assets", "Total Current Assets", "TotalCurrentAssets"]
  const CURRENT_LIABILITIES: seq<string> :=
    ["Current Liabilities", "Total Current Liabilities", "TotalCurrentLiabilities"]
  const SHARES: seq<string> :=
    ["Share Issued", "Common Stock", "Ordinary Shares Number", "Shares Outstanding", "CommonStock"]
  const OPERATING_CASH_FLOW: seq<string> :=
    ["Operating Cash Flow", "Total Cash From Operating Activities", "Cash Flow From Continuing Operating Activities"]

  /** The statement figures the score reads; suffix 0 is the current year, 1 the prior year. */
  datatype Figures = Figures(
    netIncome0: Option<real>, netIncome1: Option<real>,
    revenue0: Option<real>, revenue1: Option<real>,
    gross0: Option<real>, gross1: Option<real>,
    assets0: Option<real>, assets1: Option<real>,
    ltDebt0: Option<real>, ltDebt1: Option<real>,
    currAssets0: Option<real>, currAssets1: Option<real>,
    currLiab0: Option<real>, currLiab1: Option<real>,
    shares0: Option<real>, shares1: Option<real>,
    cfo0: Option<real>)

  function FiguresOf(fin: Option<Frame>, bal: Option<Frame>, cf: Option<Frame>): Figures
  {
    Figures(
      SafeValue(fin, NET_INCOME, 0), SafeValue(fin, NET_INCOME, 1),
      SafeValue(fin, REVENUE, 0), SafeValue(fin, REVENUE, 1),
      SafeValue(fin, GROSS_PROFIT, 0), SafeValue(fin, GROSS_PROFIT, 1),
      SafeValue(bal, TOTAL_ASSETS, 0), SafeValue(bal, TOTAL_ASSETS, 1),
      SafeValue(bal, LONG_TERM_DEBT, 0), SafeValue(bal, LONG_TERM_DEBT, 1),
      SafeValue(bal, CURRENT_ASSETS, 0), SafeValue(bal, CURRENT_ASSETS, 1),
      SafeValue(bal, CURRENT_LIABILITIES, 0), SafeValue(bal, CURRENT_LIABILITIES, 1),
      SafeValue(bal, SHARES, 0), SafeValue(bal, SHARES, 1),
      SafeValue(cf, OPERATING_CASH_FLOW, 0))
  }

  /**
   * A derived ratio: NaN when the denominator is NaN or zero, and NaN when the numerator is NaN
   * (NaN divided by a number is NaN).
   */
  function Ratio(num: Option<real>, den: Option<real>): (r: Option<real>)
    ensures r.Some? <==> num.Some? && den.Some? && den.value != 0.0
    ensures r.Some? ==> r.value * den.value == num.value
  {
    if den.Some? && den.value != 0.0 && num.Some? then Some(num.value / den.value) else None
  }

  /** `acc = cfo_0 / assets_0 - roa_0`, NaN when any of its inputs is. */
  function Accruals(cfo: Option<real>, assets: Option<real>, roa: Option<real>): (r: Option<real>)
    ensures r.Some? <==> cfo.Some? && assets.Some? && assets.value != 0.0 && roa.Some?
  {
    var c := Ratio(cfo, assets);
    if c.Some? && roa.Some? then Some(c.value - roa.value) else None
  }

  /** `s(v(x) and x > 0)`. */
  function Positive(x: Option<real>): int
  {
    if x.Some? && x.value > 0.0 then 1 else 0
  }

  /** `s(v(a, b) and a > b)`. */
  function Rises(a: Option<real>, b: Option<real>): int
  {
    if a.Some? && b.Some? && a.value > b.value then 1 else 0
  }

  /** `s(v(a, b) and a < b)`. */
  function Falls(a: Option<real>, b: Option<real>): int
  {
    if a.Some? && b.Some? && a.value < b.value then 1 else 0
  }

  /** `s(v(a, b) and a <= b)`. */
  function NotAbove(a: Option<real>, b: Option<real>): int
  {
    if a.Some? && b.Some? && a.value <= b.value then 1 else 0
  }

  /** The `detail` dictionary; `None` is a component not computed. */
  datatype Detail = Detail(
    f1Roa: Option<int>, f2Cfo: Option<int>, f3RoaChange: Option<int>,
    f4Accruals: Option<int>, f5Leverage: Option<int>, f6Liquidity: Option<int>,
    f7Dilution: Option<int>, f8GrossMargin: Option<int>, f9AssetTurnover: Option<int>)

  const NO_DETAIL: Detail := Detail(None, None, None, None, None, None, None, None, None)

  /** `detail.values()`, in the dictionary's order. */
  function Components(d: Detail): seq<Option<int>>
  {
    [d.f1Roa, d.f2Cfo, d.f3RoaChange, d.f4Accruals, d.f5Leverage, d.f6Liquidity,
     d.f7Dilution, d.f8GrossMargin, d.f9AssetTurnover]
  }

  /** `sum(x for x in values if x is not None)`. */
  function SumPresent(values: seq<Option<int>>): int
  {
    if values == [] then 0 else SumPresent(values[..|values| - 1]) + values[|values| - 1].GetOr(0)
  }

  /** The number of components that pass. */
  function CountPassed(values: seq<Option<int>>): nat
  {
    if values == [] then 0
    else CountPassed(values[..|values| - 1]) + (if values[|values| - 1] == Some(1) then 1 else 0)
  }

  /** Every component was computed and is 0 or 1. */
  predicate Scored(values: seq<Option<int>>)
  {
    forall i :: 0 <= i < |values| ==> values[i] == Some(0) || values[i] == Some(1)
  }

  /** The nine components computed from the figures. */
  function DetailOf(x: Figures): Detail
  {
    var roa0 := Ratio(x.netIncome0, x.assets0);
    var roa1 := Ratio(x.netIncome1, x.assets1);
    var dr0 := Ratio(x.ltDebt0, x.assets0);
    var dr1 := Ratio(x.ltDebt1, x.assets1);
    var cr0 := Ratio(x.currAssets0, x.currLiab0);
    var cr1 := Ratio(x.currAssets1, x.currLiab1);
    var gm0 := Ratio(x.gross0, x.revenue0);
    var gm1 := Ratio(x.gross1, x.revenue1);
    var at0 := Ratio(x.revenue0, x.assets0);
    var at1 := Ratio(x.revenue1, x.assets1);
    var acc := Accruals(x.cfo0, x.assets0, roa0);
    Detail(Some(Positive(roa0)), Some(Positive(x.cfo0)), Some(Rises(roa0, roa1)),
           Some(Positive(acc)), Some(Falls(dr0, dr1)), Some(Rises(cr0, cr1)),
           Some(NotAbove(x.shares0, x.shares1)), Some(Rises(gm0, gm1)), Some(Rises(at0, at1)))
  }

  /** The statements do not give two years of data: the score is indeterminate. */
  predicate Indeterminate(fin: Option<Frame>, bal: Option<Frame>, cf: Option<Frame>)
  {
    || fin.None? || Empty(fin.value) || fin.value.width < 2
    || bal.None? || Empty(bal.value) || bal.value.width < 2
    || cf.None? || Empty(cf.value)
  }

  datatype FScoreResult = FScoreResult(score: Option<int>, detail: Detail)

  /** `compute_fscore(stock)` on the stock's three statements. */
  function FScoreOf(fin: Option<Frame>, bal: Option<Frame>, cf: Option<Frame>): FScoreResult
  {
    if Indeterminate(fin, bal, cf) then FScoreResult(None, NO_DETAIL)
    else
      var d := DetailOf(FiguresOf(fin, bal, cf));
      FScoreResult(Some(SumPresent(Components(d))), d)
  }

  /** Every component of the detail is 0 or 1. */
  lemma DetailScored(x: Figures)
    ensures Scored(Components(DetailOf(x)))
  {
  }

  /**
   * The score is indeterminate exactly when the statements lack two years of data, and then no
   * component is computed; otherwise every component is 0 or 1 and the score, between 0 and 9,
   * is the number of components that pass.
   */
  lemma FScoreCorrect(fin: Option<Frame>, bal: Option<Frame>, cf: Option<Frame>)
    ensures var r := FScoreOf(fin, bal, cf);
            && (r.score.None? <==> Indeterminate(fin, bal, cf))
            && (r.score.None? ==> r.detail == NO_DETAIL)
            && (r.score.Some? ==> && Scored(Components(r.detail))
                                  && r.score.value == CountPassed(Components(r.detail))
                                  && 0 <= r.score.value <= 9)
  {
    if !Indeterminate(fin, bal, cf) {
      var d := DetailOf(FiguresOf(fin, bal, cf));
      DetailScored(FiguresOf(fin, bal, cf));
      SumOfScored(Components(d));
    }
  }

  /** Summing components that are each 0 or 1 counts the ones that pass. */
  lemma {:induction false} SumOfScored(values: seq<Option<int>>)
    requires Scored(values)
    ensures SumPresent(values) == CountPassed(values) <= |values|
  {
    if values != [] {
      var p := values[..|values| - 1];
      assert Scored(p) by {
        assert forall i :: 0 <= i < |p| ==> p[i] == values[i];
      }
      SumOfScored(p);
    }
  }

  /** `compute_fscore` as the source writes it: the guards, the figures, then `detail` field by field. */
  method ComputeFScore(fin: Option<Frame>, bal: Option<Frame>, cf: Option<Frame>)
    returns (score: Option<int>, detail: Detail)
    ensures FScoreResult(score, detail) == FScoreOf(fin, bal, cf)
  {
    detail := NO_DETAIL;
    if fin.None? || Empty(fin.value) || fin.value.width < 2 {
      return None, detail;
    }
    if bal.None? || Empty(bal.value) || bal.value.width < 2 {
      return None, detail;
    }
    if cf.None? || Empty(cf.value) {
      return None, detail;
    }
    var x := ReadFigures(fin, bal, cf);
    var roa0 := Ratio(x.netIncome0, x.assets0);
    var roa1 := Ratio(x.netIncome1, x.assets1);
    var dr0 := Ratio(x.ltDebt0, x.assets0);
    var dr1 := Ratio(x.ltDebt1, x.assets1);
    var cr0 := Ratio(x.currAssets0, x.currLiab0);
    var cr1 := Ratio(x.currAssets1, x.currLiab1);
    var gm0 := Ratio(x.gross0, x.revenue0);
    var gm1 := Ratio(x.gross1, x.revenue1);
    var at0 := Ratio(x.revenue0, x.assets0);
    var at1 := Ratio(x.revenue1, x.assets1);
    var acc := Accruals(x.cfo0, x.assets0, roa0);
    detail := detail.(f1Roa := Some(Positive(roa0)));
    detail := detail.(f2Cfo := Some(Positive(x.cfo0)));
    detail := detail.(f3RoaChange := Some(Rises(roa0, roa1)));
    detail := detail.(f4Accruals := Some(Positive(acc)));
    detail := detail.(f5Leverage := Some(Falls(dr0, dr1)));
    detail := detail.(f6Liquidity := Some(Rises(cr0, cr1)));
    detail := detail.(f7Dilution := Some(NotAbove(x.shares0, x.shares1)));
    detail := detail.(f8GrossMargin := Some(Rises(gm0, gm1)));
    detail := detail.(f9AssetTurnover := Some(Rises(at0, at1)));
    score := Some(SumPresent(Components(detail)));
  }

  /** The seventeen `_safe` calls of `compute_fscore`. */
  method ReadFigures(fin: Option<Frame>, bal: Option<Frame>, cf: Option<Frame>) returns (x: Figures)
    ensures x == FiguresOf(fin, bal, cf)
  {
    var netIncome0 := Safe(fin, NET_INCOME, 0);
    var netIncome1 := Safe(fin, NET_INCOME, 1);
    var revenue0 := Safe(fin, REVENUE, 0);
    var revenue1 := Safe(fin, REVENUE, 1);
    var gross0 := Safe(fin, GROSS_PROFIT, 0);
    var gross1 := Safe(fin, GROSS_PROFIT, 1);
    var assets0 := Safe(bal, TOTAL_ASSETS, 0);
    var assets1 := Safe(bal, TOTAL_ASSETS, 1);
    var ltDebt0 := Safe(bal, LONG_TERM_DEBT, 0);
    var ltDebt1 := Safe(bal, LONG_TERM_DEBT, 1);
    var currAssets0 := Safe(bal, CURRENT_ASSETS, 0);
    var currAssets1 := Safe(bal, CURRENT_ASSETS, 1);
    var currLiab0 := Safe(bal, CURRENT_LIABILITIES, 0);
    var currLiab1 := Safe(bal, CURRENT_LIABILITIES, 1);
    var shares0 := Safe(bal, SHARES, 0);
    var shares1 := Safe(bal, SHARES, 1);
    var cfo0 := Safe(cf, OPERATING_CASH_FLOW, 0);
    x := Figures(netIncome0, netIncome1, revenue0, revenue1, gross0, gross1, assets0, assets1,
                 ltDebt0, ltDebt1, currAssets0, currAssets1, currLiab0, currLiab1, shares0, shares1, cfo0);
  }

  /**
   * A component scores 0 whenever a figure it uses is NaN, or a denominator it uses is zero:
   * - net income or total assets of a year feed ROA, and ROA feeds the accruals;
   * - total assets are the denominator of ROA, leverage and asset turnover;
   * - current liabilities are the denominator of the current ratio, revenue of the gross margin.
   */
  lemma MissingFiguresScoreZero(x: Figures)
    ensures var d := DetailOf(x);
            && (x.netIncome0.None? ==> d.f1Roa == Some(0) && d.f3RoaChange == Some(0) && d.f4Accruals == Some(0))
            && (x.netIncome1.None? ==> d.f3RoaChange == Some(0))
            && (x.cfo0.None? ==> d.f2Cfo == Some(0) && d.f4Accruals == Some(0))
            && ((x.assets0.None? || x.assets0 == Some(0.0)) ==>
                  && d.f1Roa == Some(0) && d.f3RoaChange == Some(0) && d.f4Accruals == Some(0)
                  && d.f5Leverage == Some(0) && d.f9AssetTurnover == Some(0))
            && ((x.assets1.None? || x.assets1 == Some(0.0)) ==>
                  d.f3RoaChange == Some(0) && d.f5Leverage == Some(0) && d.f9AssetTurnover == Some(0))
            && ((x.ltDebt0.None? || x.ltDebt1.None?) ==> d.f5Leverage == Some(0))
            && ((x.currLiab0.None? || x.currLiab0 == Some(0.0) || x.currLiab1.None? || x.currLiab1 == Some(0.0)
                 || x.currAssets0.None? || x.currAssets1.None?) ==> d.f6Liquidity == Some(0))
            && ((x.shares0.None? || x.shares1.None?) ==> d.f7Dilution == Some(0))
            && ((x.revenue0.None? || x.revenue0 == Some(0.0) || x.revenue1.None? || x.revenue1 == Some(0.0)
                 || x.gross0.None? || x.gross1.None?) ==> d.f8GrossMargin == Some(0))
            && ((x.revenue0.None? || x.revenue1.None?) ==> d.f9AssetTurnover == Some(0))
  {
  }

  /**
   * The comparison directions: an unchanged ratio never passes the ROA, leverage, liquidity,
   * margin or turnover tests, while an unchanged share count passes the dilution test.
   */
  lemma UnchangedFigures(x: Figures)
    ensures var d := DetailOf(x);
            && (x.netIncome1 == x.netIncome0 && x.assets1 == x.assets0 ==> d.f3RoaChange == Some(0))
            && (x.ltDebt1 == x.ltDebt0 && x.assets1 == x.assets0 ==> d.f5Leverage == Some(0))
            && (x.currAssets1 == x.currAssets0 && x.currLiab1 == x.currLiab0 ==> d.f6Liquidity == Some(0))
            && (x.gross1 == x.gross0 && x.revenue1 == x.revenue0 ==> d.f8GrossMargin == Some(0))
            && (x.revenue1 == x.revenue0 && x.assets1 == x.assets0 ==> d.f9AssetTurnover == Some(0))
            && (x.shares0.Some? && x.shares1 == x.shares0 ==> d.f7Dilution == Some(1))
  {
  }
}
