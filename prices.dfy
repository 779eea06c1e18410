/**
 * Price data as the core receives it: a table of daily closes (one column per ticker, aligned
 * to a shared date index, with missing values) and a benchmark series of dated closes.
 */
module Prices {
  import opened Wrappers

  /** One dated, non-missing close. */
  datatype Obs = Obs(date: int, price: real)

  /** One column of the close table: `closes[k]` is the close on `index[k]`, or NaN. */
  datatype Column = Column(ticker: string, closes: seq<Option<real>>)

  datatype PriceTable = PriceTable(index: seq<int>, columns: seq<Column>)

  predicate StrictlyIncreasing(s: seq<int>)
  {
    forall i, j :: 0 <= i < j < |s| ==> s[i] < s[j]
  }

  /** `series.dropna()`: the dated non-missing closes of a column, in index order. */
  function Observations(index: seq<int>, closes: seq<Option<real>>): (r: seq<Obs>)
    ensures |r| <= |index|
  {
    if index == [] || closes == [] then []
    else (if closes[0].Some? then [Obs(index[0], closes[0].value)] else [])
         + Observations(index[1..], closes[1..])
  }

  /** `s[s.index <= d]`: the observations dated on or before `d`. */
  function UpTo(obs: seq<Obs>, d: int): (r: seq<Obs>)
    ensures |r| <= |obs|
    ensures forall i :: 0 <= i < |r| ==> r[i].date <= d && r[i] in obs
  {
    if obs == [] then []
    else (if obs[0].date <= d then [obs[0]] else []) + UpTo(obs[1..], d)
  }

  /** `s[(s.index > lo) & (s.index <= hi)]`: the observations in the window (lo, hi]. */
  function Between(obs: seq<Obs>, lo: int, hi: int): (r: seq<Obs>)
    ensures |r| <= |obs|
    ensures forall i :: 0 <= i < |r| ==> lo < r[i].date <= hi && r[i] in obs
  {
    if obs == [] then []
    else (if lo < obs[0].date <= hi then [obs[0]] else []) + Between(obs[1..], lo, hi)
  }

  /** `s.loc[d]` for a date `d` in the series' index (the first such entry). */
  function At(obs: seq<Obs>, d: int): (r: Option<real>)
    ensures r.Some? <==> exists i :: 0 <= i < |obs| && obs[i].date == d
    ensures r.Some? ==> Obs(d, r.value) in obs
  {
    if obs == [] then None
    else if obs[0].date == d then Some(obs[0].price)
    else
      var r := At(obs[1..], d);
      assert forall i :: 1 <= i < |obs| ==> obs[i] == obs[1..][i - 1];
      r
  }

  function PricesOf(obs: seq<Obs>): (r: seq<real>)
    ensures |r| == |obs|
    ensures forall i :: 0 <= i < |obs| ==> r[i] == obs[i].price
  {
    seq(|obs|, i requires 0 <= i < |obs| => obs[i].price)
  }

  /** `prices[prices.index <= d][col].dropna()`: a column's closes up to and including `d`. */
  function Closes(index: seq<int>, closes: seq<Option<real>>, d: int): seq<real>
  {
    PricesOf(UpTo(Observations(index, closes), d))
  }

  /** `prices[t]` when `t in prices.columns` (the first column of that name). */
  function ColumnOf(columns: seq<Column>, t: string): (r: Option<Column>)
    ensures r.Some? ==> r.value in columns && r.value.ticker == t
    ensures r.None? ==> forall c :: c in columns ==> c.ticker != t
  {
    if columns == [] then None
    else if columns[0].ticker == t then Some(columns[0])
    else ColumnOf(columns[1..], t)
  }

  /**
   * A column's closes up to `d` depend only on its entries dated on or before `d`: changing
   * any close dated after `d` leaves them as they were.
   */
  lemma {:induction false} ClosesIgnoreLaterPrices(index: seq<int>, a: seq<Option<real>>, b: seq<Option<real>>, d: int)
    requires |a| == |index| && |b| == |index|
    requires forall k :: 0 <= k < |index| && index[k] <= d ==> a[k] == b[k]
    ensures Closes(index, a, d) == Closes(index, b, d)
  {
    ObservationsUpTo(index, a, b, d);
  }

  lemma {:induction false} ObservationsUpTo(index: seq<int>, a: seq<Option<real>>, b: seq<Option<real>>, d: int)
    requires |a| == |index| && |b| == |index|
    requires forall k :: 0 <= k < |index| && index[k] <= d ==> a[k] == b[k]
    ensures UpTo(Observations(index, a), d) == UpTo(Observations(index, b), d)
  {
    if index != [] {
      ObservationsUpTo(index[1..], a[1..], b[1..], d);
      var ha := if a[0].Some? then [Obs(index[0], a[0].value)] else [];
      var hb := if b[0].Some? then [Obs(index[0], b[0].value)] else [];
      UpToAppend(ha, Observations(index[1..], a[1..]), d);
      UpToAppend(hb, Observations(index[1..], b[1..]), d);
      if index[0] <= d {
        assert ha == hb;
      } else {
        assert UpTo(ha, d) == [] == UpTo(hb, d);
      }
    }
  }

  lemma {:induction false} UpToAppend(a: seq<Obs>, b: seq<Obs>, d: int)
    ensures UpTo(a + b, d) == UpTo(a, d) + UpTo(b, d)
  {
    if a == [] {
      assert a + b == b;
    } else {
      assert (a + b)[1..] == a[1..] + b;
      UpToAppend(a[1..], b, d);
    }
  }

  /** Every close present in the column is positive. */
  predicate PositiveCloses(closes: seq<Option<real>>)
  {
    forall k :: 0 <= k < |closes| && closes[k].Some? ==> closes[k].value > 0.0
  }

  /** The observations of a column with positive closes have positive prices. */
  lemma {:induction false} ObservationsPositive(index: seq<int>, closes: seq<Option<real>>)
    requires PositiveCloses(closes)
    ensures forall o :: o in Observations(index, closes) ==> o.price > 0.0
  {
    if index != [] && closes != [] {
      assert PositiveCloses(closes[1..]) by {
        forall k | 0 <= k < |closes[1..]| && closes[1..][k].Some? ensures closes[1..][k].value > 0.0 {
          assert closes[1..][k] == closes[k + 1];
        }
      }
      ObservationsPositive(index[1..], closes[1..]);
    }
  }
}
