/**
 * Point-in-time portfolio selection (`select_portfolio` in backtest.py): the eligibility
 * filters, the RSL (Relative Strength Levy) of each eligible ticker as of a date, and the
 * stable descending sort that picks the top N.
 */
module Selection {
  import opened Wrappers
  import opened Prices
  import opened Numeric
  import StableSort

  const RSL_PERIOD: nat := 130
  const TOP_N: nat := 20
  /** 500M SEK. */
  const MIN_MARKET_CAP: real := 500000000.0
  const EXCLUDED_SECTORS: set<string> := {
    "Financial Services", "Financials", "Banking", "Insurance",
    "Asset Management", "Capital Markets", "Banks",
    "Diversified Financials", "Consumer Finance", "Mortgage Finance"
  }

  /**
   * The current sector and market cap of a ticker, used as a proxy at every historical date.
   * A ticker missing from the metadata map has neither.
   */
  datatype Meta = Meta(sector: string, marketCap: Option<real>)

  /** An eligible ticker with its RSL (the `(col, rsl)` pairs of `eligible`). */
  datatype Ranked = Ranked(ticker: string, rsl: real)

  function RslKey(r: Ranked): real
  {
    r.rsl
  }

  function Tickers(rs: seq<Ranked>): (ts: seq<string>)
    ensures |ts| == |rs|
    ensures forall i :: 0 <= i < |rs| ==> ts[i] == rs[i].ticker
  {
    seq(|rs|, i requires 0 <= i < |rs| => rs[i].ticker)
  }

  /** The simple moving average: the mean of the last `period` closes. */
  function Sma(closes: seq<real>, period: nat): real
    requires 1 <= period <= |closes|
  {
    Mean(closes[|closes| - period..])
  }

  /** The last close divided by the moving average. */
  function RslOf(closes: seq<real>, period: nat): real
    requires 1 <= period <= |closes| && Sma(closes, period) != 0.0
  {
    closes[|closes| - 1] / Sma(closes, period)
  }

  predicate SectorExcluded(metadata: map<string, Meta>, t: string)
  {
    t in metadata && metadata[t].sector in EXCLUDED_SECTORS
  }

  /** A known market cap below the floor; an unknown one never excludes. */
  predicate CapTooSmall(metadata: map<string, Meta>, t: string)
  {
    t in metadata && metadata[t].marketCap.Some? && metadata[t].marketCap.value < MIN_MARKET_CAP
  }

  /**
   * A column takes part in the ranking as of `d` when it has at least `period` non-missing
   * closes dated on or before `d`, its sector is not excluded, its market cap is unknown or at
   * least the floor, and its moving average is not zero.
   */
  predicate Eligible(index: seq<int>, col: Column, metadata: map<string, Meta>, d: int, period: nat)
    requires period >= 1
  {
    var c := Closes(index, col.closes, d);
    && |c| >= period
    && !SectorExcluded(metadata, col.ticker)
    && !CapTooSmall(metadata, col.ticker)
    && Sma(c, period) != 0.0
  }

  function Rsl(index: seq<int>, col: Column, metadata: map<string, Meta>, d: int, period: nat): real
    requires period >= 1 && Eligible(index, col, metadata, d, period)
  {
    RslOf(Closes(index, col.closes, d), period)
  }

  /** The eligible columns with their RSL, in column order. */
  function EligibleOf(index: seq<int>, columns: seq<Column>, metadata: map<string, Meta>, d: int, period: nat): seq<Ranked>
    requires period >= 1
  {
    if columns == [] then []
    else
      var col := columns[|columns| - 1];
      EligibleOf(index, columns[..|columns| - 1], metadata, d, period)
      + (if Eligible(index, col, metadata, d, period) then [Ranked(col.ticker, Rsl(index, col, metadata, d, period))] else [])
  }

  /** `r` is the entry of some eligible column, carrying that column's RSL. */
  ghost predicate FromEligibleColumn(prices: PriceTable, metadata: map<string, Meta>, d: int, period: nat, r: Ranked)
    requires period >= 1
  {
    exists j :: 0 <= j < |prices.columns| && prices.columns[j].ticker == r.ticker
                && Eligible(prices.index, prices.columns[j], metadata, d, period)
                && r.rsl == Rsl(prices.index, prices.columns[j], metadata, d, period)
  }

  /** Some column named `t` is eligible. */
  ghost predicate TickerEligible(prices: PriceTable, metadata: map<string, Meta>, d: int, period: nat, t: string)
    requires period >= 1
  {
    exists j :: 0 <= j < |prices.columns| && prices.columns[j].ticker == t
                && Eligible(prices.index, prices.columns[j], metadata, d, period)
  }

  /** The eligible tickers, stably sorted by RSL (largest first), cut to the first `topN`. */
  function Ranking(prices: PriceTable, metadata: map<string, Meta>, d: int, period: nat, topN: nat): seq<Ranked>
    requires period >= 1
  {
    StableSort.Take(StableSort.SortDesc(EligibleOf(prices.index, prices.columns, metadata, d, period), RslKey), topN)
  }

  function Selection(prices: PriceTable, metadata: map<string, Meta>, d: int, period: nat, topN: nat): seq<string>
    requires period >= 1
  {
    Tickers(Ranking(prices, metadata, d, period, topN))
  }

  /** `select_portfolio(prices, metadata, as_of_date, period, top_n)`. */
  method SelectPortfolio(prices: PriceTable, metadata: map<string, Meta>, asOf: int, period: nat, topN: nat)
    returns (picks: seq<string>)
    requires period >= 1
    ensures picks == Selection(prices, metadata, asOf, period, topN)
    ensures |picks| <= topN
    ensures forall i :: 0 <= i < |picks| ==> TickerEligible(prices, metadata, asOf, period, picks[i])
  {
    var eligible: seq<Ranked> := [];
    for j := 0 to |prices.columns|
      invariant eligible == EligibleOf(prices.index, prices.columns[..j], metadata, asOf, period)
    {
      EligibleOfStep(prices.index, prices.columns, metadata, asOf, period, j);
      var entry := RankColumn(prices.index, prices.columns[j], metadata, asOf, period);
      eligible := eligible + entry;
    }
    assert prices.columns[..|prices.columns|] == prices.columns;
    eligible := StableSort.SortDesc(eligible, RslKey);
    picks := Tickers(StableSort.Take(eligible, topN));
    SelectionEligible(prices, metadata, asOf, period, topN);
  }

  /**
   * The body of the loop of `select_portfolio` for one column, with its `continue`s: the
   * column's ticker and RSL when it passes every filter, nothing otherwise.
   */
  method RankColumn(index: seq<int>, col: Column, metadata: map<string, Meta>, asOf: int, period: nat)
    returns (entry: seq<Ranked>)
    requires period >= 1
    ensures entry == if Eligible(index, col, metadata, asOf, period) then [Ranked(col.ticker, Rsl(index, col, metadata, asOf, period))] else []
  {
    var series := Closes(index, col.closes, asOf);
    if |series| < period {
      return [];
    }
    if col.ticker in metadata && metadata[col.ticker].sector in EXCLUDED_SECTORS {
      return [];
    }
    var mcap := if col.ticker in metadata then metadata[col.ticker].marketCap else None;
    if mcap.Some? && mcap.value < MIN_MARKET_CAP {
      return [];
    }
    var currentPrice := series[|series| - 1];
    var sma := Mean(series[|series| - period..]);
    if sma == 0.0 {
      return [];
    }
    assert Eligible(index, col, metadata, asOf, period);
    assert currentPrice / sma == Rsl(index, col, metadata, asOf, period);
    entry := [Ranked(col.ticker, currentPrice / sma)];
  }

  /** Every entry of `EligibleOf` comes from an eligible column and carries that column's RSL. */
  lemma {:induction false} EligibleOfSound(index: seq<int>, columns: seq<Column>, metadata: map<string, Meta>, d: int, period: nat)
    requires period >= 1
    ensures forall e :: e in EligibleOf(index, columns, metadata, d, period) ==>
      exists j :: 0 <= j < |columns| && columns[j].ticker == e.ticker
                  && Eligible(index, columns[j], metadata, d, period)
                  && e.rsl == Rsl(index, columns[j], metadata, d, period)
  {
    if columns != [] {
      var p := columns[..|columns| - 1];
      EligibleOfSound(index, p, metadata, d, period);
      forall e | e in EligibleOf(index, columns, metadata, d, period)
        ensures exists j :: 0 <= j < |columns| && columns[j].ticker == e.ticker
                  && Eligible(index, columns[j], metadata, d, period)
                  && e.rsl == Rsl(index, columns[j], metadata, d, period)
      {
        if e in EligibleOf(index, p, metadata, d, period) {
          var j :| 0 <= j < |p| && p[j].ticker == e.ticker
                  && Eligible(index, p[j], metadata, d, period)
                  && e.rsl == Rsl(index, p[j], metadata, d, period);
          assert columns[j] == p[j];
        } else {
          assert columns[|columns| - 1].ticker == e.ticker;
        }
      }
    }
  }

  /** Every eligible column has its entry in `EligibleOf`. */
  lemma {:induction false} EligibleOfComplete(index: seq<int>, columns: seq<Column>, metadata: map<string, Meta>, d: int, period: nat, j: nat)
    requires period >= 1
    requires j < |columns| && Eligible(index, columns[j], metadata, d, period)
    ensures Ranked(columns[j].ticker, Rsl(index, columns[j], metadata, d, period)) in EligibleOf(index, columns, metadata, d, period)
  {
    var p := columns[..|columns| - 1];
    if j < |columns| - 1 {
      assert p[j] == columns[j];
      EligibleOfComplete(index, p, metadata, d, period, j);
    }
  }

  lemma EligibleOfStep(index: seq<int>, columns: seq<Column>, metadata: map<string, Meta>, d: int, period: nat, j: nat)
    requires period >= 1 && j < |columns|
    ensures EligibleOf(index, columns[..j + 1], metadata, d, period)
            == EligibleOf(index, columns[..j], metadata, d, period)
               + (if Eligible(index, columns[j], metadata, d, period)
                  then [Ranked(columns[j].ticker, Rsl(index, columns[j], metadata, d, period))] else [])
  {
    assert columns[..j + 1][..j] == columns[..j];
  }

  /** Every selected ticker passes all the eligibility filters as of `d`. */
  lemma SelectionEligible(prices: PriceTable, metadata: map<string, Meta>, d: int, period: nat, topN: nat)
    requires period >= 1
    ensures |Selection(prices, metadata, d, period, topN)| <= topN
    ensures forall r :: r in Ranking(prices, metadata, d, period, topN) ==>
      FromEligibleColumn(prices, metadata, d, period, r)
    ensures forall t :: t in Selection(prices, metadata, d, period, topN) ==>
      TickerEligible(prices, metadata, d, period, t)
  {
    var e := EligibleOf(prices.index, prices.columns, metadata, d, period);
    var s := StableSort.SortDesc(e, RslKey);
    var r := Ranking(prices, metadata, d, period, topN);
    var sel := Selection(prices, metadata, d, period, topN);
    StableSort.SortDescCorrect(e, RslKey);
    EligibleOfSound(prices.index, prices.columns, metadata, d, period);
    forall x | x in r ensures FromEligibleColumn(prices, metadata, d, period, x) {
      assert x in multiset(s);
      assert x in e;
    }
    forall t | t in sel ensures TickerEligible(prices, metadata, d, period, t) {
      var i :| 0 <= i < |sel| && sel[i] == t;
      assert r[i] in r;
    }
  }

  /**
   * The selection is ordered by RSL, largest first, holds `min(topN, #eligible)` tickers, and
   * every eligible ticker left out has an RSL no larger than any selected one.
   */
  lemma SelectionRanked(prices: PriceTable, metadata: map<string, Meta>, d: int, period: nat, topN: nat)
    requires period >= 1
    ensures var r := Ranking(prices, metadata, d, period, topN);
      && StableSort.SortedDesc(r, RslKey)
      && |r| == Min(topN, |EligibleOf(prices.index, prices.columns, metadata, d, period)|)
    ensures forall j :: 0 <= j < |prices.columns| && Eligible(prices.index, prices.columns[j], metadata, d, period)
                        && prices.columns[j].ticker !in Selection(prices, metadata, d, period, topN) ==>
      forall i :: 0 <= i < |Ranking(prices, metadata, d, period, topN)| ==>
        Rsl(prices.index, prices.columns[j], metadata, d, period) <= Ranking(prices, metadata, d, period, topN)[i].rsl
  {
    var e := EligibleOf(prices.index, prices.columns, metadata, d, period);
    StableSort.SortDescCorrect(e, RslKey);
    forall j | 0 <= j < |prices.columns| && Eligible(prices.index, prices.columns[j], metadata, d, period)
                 && prices.columns[j].ticker !in Selection(prices, metadata, d, period, topN)
      ensures forall i :: 0 <= i < |Ranking(prices, metadata, d, period, topN)| ==>
                Rsl(prices.index, prices.columns[j], metadata, d, period) <= Ranking(prices, metadata, d, period, topN)[i].rsl
    {
      LeftOutBelow(prices, metadata, d, period, topN, j);
    }
  }

  /** One eligible column left out of the selection has an RSL no larger than any selected one. */
  lemma LeftOutBelow(prices: PriceTable, metadata: map<string, Meta>, d: int, period: nat, topN: nat, j: nat)
    requires period >= 1
    requires j < |prices.columns| && Eligible(prices.index, prices.columns[j], metadata, d, period)
    requires prices.columns[j].ticker !in Selection(prices, metadata, d, period, topN)
    ensures forall i :: 0 <= i < |Ranking(prices, metadata, d, period, topN)| ==>
              Rsl(prices.index, prices.columns[j], metadata, d, period) <= Ranking(prices, metadata, d, period, topN)[i].rsl
  {
    var e := EligibleOf(prices.index, prices.columns, metadata, d, period);
    var s := StableSort.SortDesc(e, RslKey);
    var r := Ranking(prices, metadata, d, period, topN);
    StableSort.SortDescCorrect(e, RslKey);
    var x := Ranked(prices.columns[j].ticker, Rsl(prices.index, prices.columns[j], metadata, d, period));
    EligibleOfComplete(prices.index, prices.columns, metadata, d, period, j);
    assert x in multiset(s);
    var p :| 0 <= p < |s| && s[p] == x;
    forall i | 0 <= i < |r| ensures x.rsl <= r[i].rsl {
      assert r[i] == s[i];
      assert RslKey(s[i]) >= RslKey(s[p]);
    }
  }

  /**
   * Among tickers with equal RSL, the selected ones are the earliest of them in column order:
   * for every RSL value, the selected entries carrying it are a prefix of the eligible entries
   * carrying it, and `EligibleOf` lists eligible columns in column order.
   */
  lemma SelectionKeepsEarliestTies(prices: PriceTable, metadata: map<string, Meta>, d: int, period: nat, topN: nat, k: real)
    requires period >= 1
    ensures StableSort.WithKey(Ranking(prices, metadata, d, period, topN), RslKey, k)
            <= StableSort.WithKey(EligibleOf(prices.index, prices.columns, metadata, d, period), RslKey, k)
  {
    var e := EligibleOf(prices.index, prices.columns, metadata, d, period);
    var s := StableSort.SortDesc(e, RslKey);
    StableSort.SortDescCorrect(e, RslKey);
    StableSort.TakeKeepsEarliestTies(s, topN, RslKey, k);
  }

  /** The RSL depends only on the last `period` closes: earlier closes do not change it. */
  lemma RslIgnoresEarlierCloses(earlier: seq<real>, window: seq<real>, period: nat)
    requires 1 <= period == |window| && Sma(window, period) != 0.0
    ensures Sma(earlier + window, period) == Sma(window, period)
    ensures RslOf(earlier + window, period) == RslOf(window, period)
  {
    assert (earlier + window)[|earlier + window| - period..] == window;
  }

  /** The RSL as of `d` does not depend on closes dated after `d`. */
  lemma RslIgnoresLaterPrices(index: seq<int>, a: Column, b: Column, metadata: map<string, Meta>, d: int, period: nat)
    requires period >= 1 && a.ticker == b.ticker
    requires |a.closes| == |index| && |b.closes| == |index|
    requires forall k :: 0 <= k < |index| && index[k] <= d ==> a.closes[k] == b.closes[k]
    ensures Eligible(index, a, metadata, d, period) <==> Eligible(index, b, metadata, d, period)
    ensures Eligible(index, a, metadata, d, period) ==>
      Rsl(index, a, metadata, d, period) == Rsl(index, b, metadata, d, period)
  {
    ClosesIgnoreLaterPrices(index, a.closes, b.closes, d);
  }

  /** A ticker whose last `period` closes are all the same price has RSL 1. */
  lemma ConstantPriceRslOne(closes: seq<real>, period: nat, c: real)
    requires 1 <= period <= |closes| && c != 0.0
    requires forall i :: |closes| - period <= i < |closes| ==> closes[i] == c
    ensures Sma(closes, period) == c
    ensures RslOf(closes, period) == 1.0
  {
    var w := closes[|closes| - period..];
    assert forall i :: 0 <= i < |w| ==> w[i] == closes[|closes| - period + i];
    MeanConstant(w, c);
    assert closes[|closes| - 1] == c;
    assert c / c == 1.0;
  }
}
