/**
 * The per-ticker filters, the routing and the ranking of `compute_all` in screener.py. The
 * market data of a ticker arrives as a `Ticker` value: whether the `info` or the history request
 * raised, the reported market cap, the history's closes (NaN as `None`) and the three statements.
 */
module Screener {
  import opened Wrappers
  import opened Numeric
  import opened StableSort
  import opened FScore
  import Selection

  /** 500M SEK. */
  const MIN_MARKET_CAP: real := 500000000.0
  const MIN_FSCORE: int := 5
  const WATCHLIST_COUNT: nat := 3

  /** `get_market_cap_sek(info)`: the reported cap when it is present and positive. */
  function MarketCapSek(marketCap: Option<real>): (r: Option<real>)
    ensures r.Some? <==> marketCap.Some? && marketCap.value > 0.0
    ensures r.Some? ==> r == marketCap
  {
    if marketCap.Some? && marketCap.value > 0.0 then marketCap else None
  }

  /**
   * Python's `round(x, 4)` on an exact real: the nearest multiple of 1/10000, halves to the even
   * multiple.
   */
  function Round4(x: real): (r: real)
    ensures -1.0 / 20000.0 <= r - x <= 1.0 / 20000.0
  {
    var y := x * 10000.0;
    var n := RoundHalfEven(y);
    assert n as real / 10000.0 - x == (n as real - y) / 10000.0;
    n as real / 10000.0
  }

  /** The integer nearest to `y`, the even one on a tie. */
  function RoundHalfEven(y: real): (n: int)
    ensures -0.5 <= n as real - y <= 0.5
  {
    var f := y.Floor;
    var frac := y - f as real;
    if frac < 0.5 then f
    else if frac > 0.5 then f + 1
    else if f % 2 == 0 then f
    else f + 1
  }

  /** Rounding keeps order: a larger RSL never rounds below a smaller one. */
  lemma Round4Monotone(x: real, y: real)
    requires x <= y
    ensures Round4(x) <= Round4(y)
  {
    RoundHalfEvenMonotone(x * 10000.0, y * 10000.0);
  }

  lemma RoundHalfEvenMonotone(a: real, b: real)
    requires a <= b
    ensures RoundHalfEven(a) <= RoundHalfEven(b)
  {
    var fa, fb := a.Floor, b.Floor;
    assert fa <= fb;
    if fa == fb {
      assert a - fa as real <= b - fb as real;
    }
  }

  /** `hist["Close"].dropna()`. */
  function Dropna(closes: seq<Option<real>>): (r: seq<real>)
    ensures |r| <= |closes|
  {
    if closes == [] then []
    else Dropna(closes[..|closes| - 1]) + (if closes[|closes| - 1].Some? then [closes[|closes| - 1].value] else [])
  }

  datatype Ticker = Ticker(name: string, symbol: string,
                           infoFails: bool, marketCap: Option<real>,
                           historyFails: bool, closes: seq<Option<real>>,
                           fin: Option<Frame>, bal: Option<Frame>, cf: Option<Frame>)

  /** A screened ticker; `rank` and `watchlistRank` are written after sorting. */
  datatype Record = Record(name: string, ticker: string, price: real, sma: real, rsl: real,
                           marketCap: Option<real>, fscore: Option<int>, detail: Detail,
                           rank: Option<nat>, watchlistRank: Option<nat>)

  /** Why a ticker was skipped. `Failed` is an exception caught by the loop ("Error: ..."). */
  datatype SkipReason = CapTooSmall(cap: real) | NoPriceData | InsufficientHistory | Failed

  datatype Skip = Skip(name: string, ticker: string, reason: SkipReason, days: nat)

  /** Where one ticker goes: `skipped`, `results`, `watchlist_candidates` or neither. */
  datatype Outcome = Skipped(entry: Skip) | Main(record: Record) | Watch(record: Record) | Excluded(record: Record)

  /** The routing of a screened record by its F-Score. */
  function Classify(rec: Record): Outcome
  {
    if rec.fscore.None? || rec.fscore.value >= MIN_FSCORE then Main(rec)
    else if 1 <= rec.fscore.value <= MIN_FSCORE - 1 then Watch(rec)
    else Excluded(rec)
  }

  /** The record of a ticker that passed the filters. */
  function RecordOf(t: Ticker, series: seq<real>, period: nat, mcap: Option<real>): Record
    requires 1 <= period <= |series| && Selection.Sma(series, period) != 0.0
  {
    var fs := FScoreOf(t.fin, t.bal, t.cf);
    Record(t.name, t.symbol, series[|series| - 1], Selection.Sma(series, period),
           Round4(Selection.RslOf(series, period)), mcap, fs.score, fs.detail, None, None)
  }

  /** One pass of the loop of `compute_all` over a ticker. */
  function Screen(t: Ticker, period: nat): Outcome
    requires period >= 1
  {
    var mcap := MarketCapSek(t.marketCap);
    if t.infoFails then Skipped(Skip(t.name, t.symbol, Failed, 0))
    else if mcap.Some? && mcap.value < MIN_MARKET_CAP then Skipped(Skip(t.name, t.symbol, CapTooSmall(mcap.value), 0))
    else if t.historyFails then Skipped(Skip(t.name, t.symbol, Failed, 0))
    else if |t.closes| == 0 then Skipped(Skip(t.name, t.symbol, NoPriceData, 0))
    else ScreenSeries(t, Dropna(t.closes), period, mcap)
  }

  /** The rest of the pass, on the non-missing closes. */
  function ScreenSeries(t: Ticker, series: seq<real>, period: nat, mcap: Option<real>): Outcome
    requires period >= 1
  {
    if |series| < period then Skipped(Skip(t.name, t.symbol, InsufficientHistory, |series|))
    else if Selection.Sma(series, period) == 0.0 then Skipped(Skip(t.name, t.symbol, Failed, 0))
    else Classify(RecordOf(t, series, period, mcap))
  }

  /** A known cap below the minimum, and only that, skips a ticker for its cap; an unknown cap is not filtered. */
  lemma ScreenCapFilter(t: Ticker, period: nat)
    requires period >= 1
    ensures Screen(t, period).Skipped? && Screen(t, period).entry.reason.CapTooSmall? <==>
              !t.infoFails && t.marketCap.Some? && 0.0 < t.marketCap.value < MIN_MARKET_CAP
  {
  }

  /** A ticker skipped for its history has fewer than `period` closes, and the entry records how many. */
  lemma ScreenHistoryFilter(t: Ticker, period: nat)
    requires period >= 1
    ensures var o := Screen(t, period);
            o.Skipped? && o.entry.reason.InsufficientHistory? ==> o.entry.days == |Dropna(t.closes)| < period
  {
  }

  /**
   * A ticker that passes the filters has at least `period` closes and a non-zero moving average;
   * its record carries the rounded RSL of its closes and its F-Score, and the F-Score alone
   * decides its list.
   */
  lemma ScreenRecord(t: Ticker, period: nat)
    requires period >= 1
    ensures var o := Screen(t, period);
            !o.Skipped? ==>
              && |Dropna(t.closes)| >= period
              && Selection.Sma(Dropna(t.closes), period) != 0.0
              && o.record.rsl == Round4(Selection.RslOf(Dropna(t.closes), period))
              && o.record.fscore == FScoreOf(t.fin, t.bal, t.cf).score
              && o.record.rank.None? && o.record.watchlistRank.None?
              && o == Classify(o.record)
  {
    var o := Screen(t, period);
    if !o.Skipped? {
      var series := Dropna(t.closes);
      var rec := RecordOf(t, series, period, MarketCapSek(t.marketCap));
      assert o == Classify(rec);
      ClassifyCorrect(rec);
    }
  }

  /**
   * The routing: an indeterminate F-Score or one of at least `MIN_FSCORE` goes to the main list,
   * 1 to `MIN_FSCORE - 1` to the watchlist candidates, and one below 1 to neither.
   */
  lemma ClassifyCorrect(rec: Record)
    ensures Classify(rec).Main? <==> rec.fscore.None? || rec.fscore.value >= MIN_FSCORE
    ensures Classify(rec).Watch? <==> rec.fscore.Some? && 1 <= rec.fscore.value < MIN_FSCORE
    ensures Classify(rec).Excluded? <==> rec.fscore.Some? && rec.fscore.value < 1
    ensures Classify(rec).record == rec
  {
  }

  /** A ticker that goes to neither list has an F-Score of exactly 0. */
  lemma ExcludedScoreZero(t: Ticker, period: nat)
    requires period >= 1
    ensures Screen(t, period).Excluded? ==> Screen(t, period).record.fscore == Some(0)
  {
    if Screen(t, period).Excluded? {
      ScreenRecord(t, period);
      ClassifyCorrect(Screen(t, period).record);
      FScoreCorrect(t.fin, t.bal, t.cf);
    }
  }

  /**
   * The body of the loop of `compute_all` for one ticker, with its early `continue`s. Division by
   * a zero moving average raises inside the `try` and is caught as an error.
   */
  method ScreenTicker(t: Ticker, period: nat) returns (outcome: Outcome)
    requires period >= 1
    ensures outcome == Screen(t, period)
  {
    if t.infoFails {
      return Skipped(Skip(t.name, t.symbol, Failed, 0));
    }
    var mcap := MarketCapSek(t.marketCap);
    if mcap.Some? && mcap.value < MIN_MARKET_CAP {
      return Skipped(Skip(t.name, t.symbol, CapTooSmall(mcap.value), 0));
    }
    if t.historyFails {
      return Skipped(Skip(t.name, t.symbol, Failed, 0));
    }
    if |t.closes| == 0 {
      return Skipped(Skip(t.name, t.symbol, NoPriceData, 0));
    }
    var series := Dropna(t.closes);
    outcome := ScoreTicker(t, series, period, mcap);
  }

  /**
   * The rest of the body, on the non-missing closes: the history checks, then the record, with
   * the RSL of the last close over the moving average rounded to four decimals and the F-Score,
   * and the list it joins.
   */
  method ScoreTicker(t: Ticker, series: seq<real>, period: nat, mcap: Option<real>) returns (outcome: Outcome)
    requires period >= 1
    ensures outcome == ScreenSeries(t, series, period, mcap)
  {
    var days := |series|;
    if days < period {
      return Skipped(Skip(t.name, t.symbol, InsufficientHistory, days));
    }
    var currentPrice := series[days - 1];
    var sma := Mean(series[days - period..]);
    if sma == 0.0 {
      return Skipped(Skip(t.name, t.symbol, Failed, 0));
    }
    assert sma == Selection.Sma(series, period);
    var ratio := currentPrice / sma;
    assert ratio == Selection.RslOf(series, period);
    var rsl := Round4(ratio);
    var fscore, fdetail := ComputeFScore(t.fin, t.bal, t.cf);
    var record := Record(t.name, t.symbol, currentPrice, sma, rsl, mcap, fscore, fdetail, None, None);
    assert record == RecordOf(t, series, period, mcap);
    ClassifyCorrect(record);
    if fscore.None? || fscore.value >= MIN_FSCORE {
      outcome := Main(record);
    } else if 1 <= fscore.value <= MIN_FSCORE - 1 {
      outcome := Watch(record);
    } else {
      outcome := Excluded(record);
    }
  }

  /** The three lists the loop builds, in ticker order. */
  datatype Routing = Routing(results: seq<Record>, candidates: seq<Record>, skipped: seq<Skip>)

  function Route(r: Routing, o: Outcome): Routing
  {
    match o
    case Skipped(e) => r.(skipped := r.skipped + [e])
    case Main(rec) => r.(results := r.results + [rec])
    case Watch(rec) => r.(candidates := r.candidates + [rec])
    case Excluded(_) => r
  }

  /** The outcome of every ticker, in ticker order. */
  function Outcomes(tickers: seq<Ticker>, period: nat): (r: seq<Outcome>)
    requires period >= 1
    ensures |r| == |tickers|
    ensures forall i :: 0 <= i < |tickers| ==> r[i] == Screen(tickers[i], period)
  {
    seq(|tickers|, i requires 0 <= i < |tickers| => Screen(tickers[i], period))
  }

  /** The lists after the loop has seen the outcomes `os`. */
  function RouteAll(os: seq<Outcome>): Routing
  {
    if os == [] then Routing([], [], []) else Route(RouteAll(os[..|os| - 1]), os[|os| - 1])
  }

  function Routed(tickers: seq<Ticker>, period: nat): Routing
    requires period >= 1
  {
    RouteAll(Outcomes(tickers, period))
  }

  /**
   * Every outcome lands in the list it names, and every entry of a list comes from an outcome
   * naming that list.
   */
  lemma {:induction false} RouteAllCorrect(os: seq<Outcome>)
    ensures forall rec :: rec in RouteAll(os).results <==> Main(rec) in os
    ensures forall rec :: rec in RouteAll(os).candidates <==> Watch(rec) in os
    ensures forall e :: e in RouteAll(os).skipped <==> Skipped(e) in os
  {
    if os != [] {
      var p := os[..|os| - 1];
      RouteAllCorrect(p);
      assert os == p + [os[|os| - 1]];
    }
  }

  /** Every ticker lands in the list its outcome names, and every list entry comes from such a ticker. */
  lemma RoutedCorrect(tickers: seq<Ticker>, period: nat)
    requires period >= 1
    ensures forall rec :: rec in Routed(tickers, period).results <==>
              exists i :: 0 <= i < |tickers| && Screen(tickers[i], period) == Main(rec)
    ensures forall rec :: rec in Routed(tickers, period).candidates <==>
              exists i :: 0 <= i < |tickers| && Screen(tickers[i], period) == Watch(rec)
    ensures forall e :: e in Routed(tickers, period).skipped <==>
              exists i :: 0 <= i < |tickers| && Screen(tickers[i], period) == Skipped(e)
  {
    var os := Outcomes(tickers, period);
    RouteAllCorrect(os);
    forall rec ensures Main(rec) in os <==> exists i :: 0 <= i < |tickers| && Screen(tickers[i], period) == Main(rec) {
      if Main(rec) in os {
        var i :| 0 <= i < |os| && os[i] == Main(rec);
        assert Screen(tickers[i], period) == Main(rec);
      }
    }
    forall rec ensures Watch(rec) in os <==> exists i :: 0 <= i < |tickers| && Screen(tickers[i], period) == Watch(rec) {
      if Watch(rec) in os {
        var i :| 0 <= i < |os| && os[i] == Watch(rec);
        assert Screen(tickers[i], period) == Watch(rec);
      }
    }
    forall e ensures Skipped(e) in os <==> exists i :: 0 <= i < |tickers| && Screen(tickers[i], period) == Skipped(e) {
      if Skipped(e) in os {
        var i :| 0 <= i < |os| && os[i] == Skipped(e);
        assert Screen(tickers[i], period) == Skipped(e);
      }
    }
  }

  /** `results` and `watchlist_candidates` hold unranked records. */
  lemma {:induction false} RoutedUnranked(tickers: seq<Ticker>, period: nat)
    requires period >= 1
    ensures forall rec :: rec in Routed(tickers, period).results ==> rec.rank.None? && rec.watchlistRank.None?
    ensures forall rec :: rec in Routed(tickers, period).candidates ==> rec.rank.None? && rec.watchlistRank.None?
  {
    RoutedCorrect(tickers, period);
    var r := Routed(tickers, period);
    forall rec | rec in r.results || rec in r.candidates ensures rec.rank.None? && rec.watchlistRank.None? {
      var i :| 0 <= i < |tickers| && (Screen(tickers[i], period) == Main(rec) || Screen(tickers[i], period) == Watch(rec));
      ScreenRecord(tickers[i], period);
    }
  }

  /** A record of `results` routed there for its F-Score. */
  lemma MainFScore(tickers: seq<Ticker>, period: nat, rec: Record)
    requires period >= 1 && rec in Routed(tickers, period).results
    ensures rec.fscore.None? || rec.fscore.value >= MIN_FSCORE
  {
    RoutedCorrect(tickers, period);
    var i :| 0 <= i < |tickers| && Screen(tickers[i], period) == Main(rec);
    ScreenRecord(tickers[i], period);
    ClassifyCorrect(rec);
  }

  /** A record of `watchlist_candidates` routed there for its F-Score. */
  lemma WatchFScore(tickers: seq<Ticker>, period: nat, rec: Record)
    requires period >= 1 && rec in Routed(tickers, period).candidates
    ensures rec.fscore.Some? && 1 <= rec.fscore.value < MIN_FSCORE
  {
    RoutedCorrect(tickers, period);
    var i :| 0 <= i < |tickers| && Screen(tickers[i], period) == Watch(rec);
    ScreenRecord(tickers[i], period);
    ClassifyCorrect(rec);
  }

  function RslKey(r: Record): real
  {
    r.rsl
  }

  /** The sort key of `skipped.sort(key=days_available)`: ascending days is descending `-days`. */
  function FewerDays(s: Skip): real
  {
    -(s.days as real)
  }

  /** `for idx, r in enumerate(s): r["rank"] = idx + 1`. */
  function Ranked(s: seq<Record>): (r: seq<Record>)
    ensures |r| == |s|
  {
    seq(|s|, i requires 0 <= i < |s| => s[i].(rank := Some(i + 1)))
  }

  /** `for idx, r in enumerate(watchlist): r["watchlist_rank"] = idx + 1`. */
  function WatchRanked(s: seq<Record>): (r: seq<Record>)
    ensures |r| == |s|
  {
    seq(|s|, i requires 0 <= i < |s| => s[i].(watchlistRank := Some(i + 1)))
  }

  /** A record with its ranks cleared. */
  function Unranked(s: seq<Record>): (r: seq<Record>)
    ensures |r| == |s|
    ensures forall i :: 0 <= i < |s| ==> r[i] == s[i].(rank := None, watchlistRank := None)
  {
    seq(|s|, i requires 0 <= i < |s| => s[i].(rank := None, watchlistRank := None))
  }

  /** The ranking loop: writes each record's 1-based position into it. */
  method AssignRanks(s: seq<Record>) returns (r: seq<Record>)
    ensures r == Ranked(s)
  {
    r := s;
    for idx := 0 to |r|
      invariant |r| == |s|
      invariant forall j :: 0 <= j < idx ==> r[j] == s[j].(rank := Some(j + 1))
      invariant forall j :: idx <= j < |r| ==> r[j] == s[j]
    {
      r := r[idx := r[idx].(rank := Some(idx + 1))];
    }
  }

  /** The watchlist ranking loop. */
  method AssignWatchRanks(s: seq<Record>) returns (r: seq<Record>)
    ensures r == WatchRanked(s)
  {
    r := s;
    for idx := 0 to |r|
      invariant |r| == |s|
      invariant forall j :: 0 <= j < idx ==> r[j] == s[j].(watchlistRank := Some(j + 1))
      invariant forall j :: idx <= j < |r| ==> r[j] == s[j]
    {
      r := r[idx := r[idx].(watchlistRank := Some(idx + 1))];
    }
  }

  /** One pass of the screening loop: the ticker's outcome goes to the list it names. */
  method RouteOutcome(results: seq<Record>, candidates: seq<Record>, skipped: seq<Skip>, outcome: Outcome)
    returns (results': seq<Record>, candidates': seq<Record>, skipped': seq<Skip>)
    ensures Routing(results', candidates', skipped') == Route(Routing(results, candidates, skipped), outcome)
  {
    results', candidates', skipped' := results, candidates, skipped;
    match outcome
    case Skipped(e) => skipped' := skipped + [e];
    case Main(rec) => results' := results + [rec];
    case Watch(rec) => candidates' := candidates + [rec];
    case Excluded(_) =>
  }

  lemma RouteAllStep(os: seq<Outcome>, i: nat)
    requires i < |os|
    ensures RouteAll(os[..i + 1]) == Route(RouteAll(os[..i]), os[i])
  {
    assert os[..i + 1][..i] == os[..i];
  }

  /** `compute_all(tickers, period)`: the screening loop, then the sorts and the ranks. */
  method ComputeAll(tickers: seq<Ticker>, period: nat)
    returns (results: seq<Record>, watchlist: seq<Record>, skipped: seq<Skip>)
    requires period >= 1
    ensures results == Ranked(SortDesc(Routed(tickers, period).results, RslKey))
    ensures watchlist == WatchRanked(Take(SortDesc(Routed(tickers, period).candidates, RslKey), WATCHLIST_COUNT))
    ensures skipped == SortDesc(Routed(tickers, period).skipped, FewerDays)
  {
    results := [];
    var candidates: seq<Record> := [];
    skipped := [];
    ghost var os := Outcomes(tickers, period);
    for i := 0 to |tickers|
      invariant Routing(results, candidates, skipped) == RouteAll(os[..i])
    {
      var outcome := ScreenTicker(tickers[i], period);
      RouteAllStep(os, i);
      results, candidates, skipped := RouteOutcome(results, candidates, skipped, outcome);
    }
    assert os[..|tickers|] == os;
    results := SortDesc(results, RslKey);
    results := AssignRanks(results);
    candidates := SortDesc(candidates, RslKey);
    watchlist := Take(candidates, WATCHLIST_COUNT);
    watchlist := AssignWatchRanks(watchlist);
    skipped := SortDesc(skipped, FewerDays);
  }

  /**
   * `results`: in non-increasing RSL order, ranked 1, 2, ... by position, and, ranks aside, a
   * permutation of the main-list records that keeps the ticker order among equal RSLs. Every
   * entry has an indeterminate F-Score or one of at least `MIN_FSCORE`.
   */
  lemma ResultsCorrect(tickers: seq<Ticker>, period: nat)
    requires period >= 1
    ensures var res := Ranked(SortDesc(Routed(tickers, period).results, RslKey));
            && SortedDesc(res, RslKey)
            && (forall i :: 0 <= i < |res| ==> res[i].rank == Some(i + 1))
            && multiset(Unranked(res)) == multiset(Routed(tickers, period).results)
            && (forall k :: WithKey(Unranked(res), RslKey, k) == WithKey(Routed(tickers, period).results, RslKey, k))
            && (forall i :: 0 <= i < |res| ==> res[i].fscore.None? || res[i].fscore.value >= MIN_FSCORE)
  {
    var main := Routed(tickers, period).results;
    RoutedUnranked(tickers, period);
    RankedSorted(main);
    forall i | 0 <= i < |main| ensures main[i].rank.None? && main[i].watchlistRank.None? {
      assert main[i] in main;
    }
    RankedPermutes(main);
    var sorted := SortDesc(main, RslKey);
    var res := Ranked(sorted);
    SortedMembers(main);
    forall i | 0 <= i < |res| ensures res[i].fscore.None? || res[i].fscore.value >= MIN_FSCORE {
      assert sorted[i] in sorted;
      MainFScore(tickers, period, sorted[i]);
    }
  }

  /** Ranking a sorted list keeps it sorted and numbers it from 1. */
  lemma RankedSorted(main: seq<Record>)
    ensures var res := Ranked(SortDesc(main, RslKey));
            && SortedDesc(res, RslKey)
            && forall i :: 0 <= i < |res| ==> res[i].rank == Some(i + 1)
  {
    SortedMembers(main);
    var sorted := SortDesc(main, RslKey);
    var res := Ranked(sorted);
    forall i, j | 0 <= i < j < |res| ensures RslKey(res[i]) >= RslKey(res[j]) {
      assert res[i].rsl == sorted[i].rsl && res[j].rsl == sorted[j].rsl;
    }
  }

  /** The ranks aside, ranking the sorted unranked records gives a stable permutation of them. */
  lemma RankedPermutes(main: seq<Record>)
    requires forall i :: 0 <= i < |main| ==> main[i].rank.None? && main[i].watchlistRank.None?
    ensures var res := Ranked(SortDesc(main, RslKey));
            && multiset(Unranked(res)) == multiset(main)
            && forall k :: WithKey(Unranked(res), RslKey, k) == WithKey(main, RslKey, k)
  {
    SortDescCorrect(main, RslKey);
    SortedMembers(main);
    var sorted := SortDesc(main, RslKey);
    var res := Ranked(sorted);
    forall i | 0 <= i < |sorted| ensures Unranked(res)[i] == sorted[i] {
      assert sorted[i] in sorted;
      var j :| 0 <= j < |main| && main[j] == sorted[i];
    }
    assert Unranked(res) == sorted;
  }

  /**
   * The watchlist: at most `WATCHLIST_COUNT` candidates of F-Score 1 to `MIN_FSCORE - 1`, ranked
   * 1, 2, ... by position in non-increasing RSL order, and no candidate left out has a higher
   * RSL than any that was kept.
   */
  lemma WatchlistCorrect(tickers: seq<Ticker>, period: nat)
    requires period >= 1
    ensures var cands := Routed(tickers, period).candidates;
            var w := WatchRanked(Take(SortDesc(cands, RslKey), WATCHLIST_COUNT));
            && |w| == Min(WATCHLIST_COUNT, |cands|)
            && SortedDesc(w, RslKey)
            && (forall i :: 0 <= i < |w| ==> w[i].watchlistRank == Some(i + 1))
            && (forall i :: 0 <= i < |w| ==> w[i].(watchlistRank := None) in cands)
            && (forall i :: 0 <= i < |w| ==> w[i].fscore.Some? && 1 <= w[i].fscore.value < MIN_FSCORE)
            && (forall c :: c in cands && c !in Unranked(w) ==> forall i :: 0 <= i < |w| ==> c.rsl <= w[i].rsl)
  {
    var cands := Routed(tickers, period).candidates;
    RoutedUnranked(tickers, period);
    TopRanked(cands, WATCHLIST_COUNT);
    var w := WatchRanked(Take(SortDesc(cands, RslKey), WATCHLIST_COUNT));
    forall i | 0 <= i < |w| ensures w[i].fscore.Some? && 1 <= w[i].fscore.value < MIN_FSCORE {
      WatchFScore(tickers, period, w[i].(watchlistRank := None));
    }
  }

  /** The records of the sorted candidates are the candidates. */
  lemma SortedMembers(cands: seq<Record>)
    ensures |SortDesc(cands, RslKey)| == |cands|
    ensures forall c :: c in SortDesc(cands, RslKey) <==> c in cands
    ensures SortedDesc(SortDesc(cands, RslKey), RslKey)
  {
    SortDescCorrect(cands, RslKey);
    var sorted := SortDesc(cands, RslKey);
    forall c ensures c in sorted <==> c in cands {
      assert c in sorted <==> c in multiset(sorted);
    }
  }

  /** The kept records, ranked: at most `n`, in non-increasing RSL order, numbered from 1. */
  lemma TopRankedOrder(cands: seq<Record>, n: nat)
    ensures var w := WatchRanked(Take(SortDesc(cands, RslKey), n));
            && |w| == Min(n, |cands|)
            && SortedDesc(w, RslKey)
            && forall i :: 0 <= i < |w| ==> w[i].watchlistRank == Some(i + 1)
  {
    SortedMembers(cands);
    var top := Take(SortDesc(cands, RslKey), n);
    var w := WatchRanked(top);
    forall i, j | 0 <= i < j < |w| ensures RslKey(w[i]) >= RslKey(w[j]) {
      assert w[i].rsl == top[i].rsl && w[j].rsl == top[j].rsl;
    }
  }

  /** Each kept record, without its watchlist rank, is one of the candidates. */
  lemma TopRankedMembers(cands: seq<Record>, n: nat)
    requires forall c :: c in cands ==> c.watchlistRank.None?
    ensures var w := WatchRanked(Take(SortDesc(cands, RslKey), n));
            forall i :: 0 <= i < |w| ==> w[i].(watchlistRank := None) in cands
  {
    SortedMembers(cands);
    var sorted := SortDesc(cands, RslKey);
    var top := Take(sorted, n);
    var w := WatchRanked(top);
    forall i | 0 <= i < |w| ensures w[i].(watchlistRank := None) in cands {
      assert top[i] == sorted[i] && sorted[i] in sorted;
      assert w[i].(watchlistRank := None) == top[i];
    }
  }

  /** No candidate that was left out has a higher RSL than a kept one. */
  lemma TopRankedBest(cands: seq<Record>, n: nat)
    requires forall c :: c in cands ==> c.rank.None? && c.watchlistRank.None?
    ensures var w := WatchRanked(Take(SortDesc(cands, RslKey), n));
            forall c :: c in cands && c !in Unranked(w) ==> forall i :: 0 <= i < |w| ==> c.rsl <= w[i].rsl
  {
    SortedMembers(cands);
    var sorted := SortDesc(cands, RslKey);
    var top := Take(sorted, n);
    var w := WatchRanked(top);
    forall i | 0 <= i < |w| ensures Unranked(w)[i] == top[i] {
      assert top[i] == sorted[i] && sorted[i] in sorted;
    }
    assert Unranked(w) == top;
    forall c | c in cands && c !in top ensures forall i :: 0 <= i < |w| ==> c.rsl <= w[i].rsl {
      var p :| 0 <= p < |sorted| && sorted[p] == c;
      assert p >= |top|;
      forall i | 0 <= i < |w| ensures c.rsl <= w[i].rsl {
        assert w[i].rsl == sorted[i].rsl;
        assert RslKey(sorted[i]) >= RslKey(sorted[p]);
      }
    }
  }

  /**
   * The first `n` unranked records by RSL, ranked: the highest RSLs in order, each one of the
   * records, and no record left out above any that was kept.
   */
  lemma TopRanked(cands: seq<Record>, n: nat)
    requires forall c :: c in cands ==> c.rank.None? && c.watchlistRank.None?
    ensures var w := WatchRanked(Take(SortDesc(cands, RslKey), n));
            && |w| == Min(n, |cands|)
            && SortedDesc(w, RslKey)
            && (forall i :: 0 <= i < |w| ==> w[i].watchlistRank == Some(i + 1))
            && (forall i :: 0 <= i < |w| ==> w[i].(watchlistRank := None) in cands)
            && (forall c :: c in cands && c !in Unranked(w) ==> forall i :: 0 <= i < |w| ==> c.rsl <= w[i].rsl)
  {
    TopRankedOrder(cands, n);
    TopRankedMembers(cands, n);
    TopRankedBest(cands, n);
  }

  /** `skipped`: a permutation of the skipped entries in non-decreasing order of available days, stable among equal days. */
  lemma SkippedCorrect(tickers: seq<Ticker>, period: nat)
    requires period >= 1
    ensures var s := SortDesc(Routed(tickers, period).skipped, FewerDays);
            && (forall i, j :: 0 <= i < j < |s| ==> s[i].days <= s[j].days)
            && multiset(s) == multiset(Routed(tickers, period).skipped)
            && forall k :: WithKey(s, FewerDays, k) == WithKey(Routed(tickers, period).skipped, FewerDays, k)
  {
    var s := SortDesc(Routed(tickers, period).skipped, FewerDays);
    SortDescCorrect(Routed(tickers, period).skipped, FewerDays);
    forall i, j | 0 <= i < j < |s| ensures s[i].days <= s[j].days {
      assert FewerDays(s[i]) >= FewerDays(s[j]);
    }
  }
}
