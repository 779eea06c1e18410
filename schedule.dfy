/**
 * Weekly rebalance schedule: the last trading date of every ISO week of the price index, from a
 * history cutoff on.
 */
module Schedule {
  import opened Prices
  import opened Calendar
  import Selection

  /** The index position pandas' `price_index[RSL_PERIOD + 10]` reads the cutoff from. */
  const CUTOFF_POSITION: nat := Selection.RSL_PERIOD + 10

  /** `d` is the last date of its ISO week among the dates of `ix`. */
  ghost predicate LastOfWeek(ix: seq<int>, d: int)
  {
    d in ix && forall e :: e in ix && IsoWeek(e) == IsoWeek(d) ==> e <= d
  }

  /** Each date lies in a strictly later ISO week than the one before it. */
  predicate WeeksIncreasing(s: seq<int>)
  {
    forall i, j :: 0 <= i < j < |s| ==> IsoWeek(s[i]) < IsoWeek(s[j])
  }

  /**
   * `dates.groupby([iso_year, iso_week]).last()` on a sorted index: a date is kept when it is the
   * final entry or the next entry starts another week.
   */
  function WeekEnds(ix: seq<int>): seq<int>
  {
    if |ix| <= 1 then ix
    else (if IsoWeek(ix[1]) != IsoWeek(ix[0]) then [ix[0]] else []) + WeekEnds(ix[1..])
  }

  /** `weekly[weekly >= cutoff]`. */
  function AtOrAfter(s: seq<int>, cutoff: int): seq<int>
  {
    if s == [] then []
    else (if s[0] >= cutoff then [s[0]] else []) + AtOrAfter(s[1..], cutoff)
  }

  /** `get_rebalance_dates(price_index)`. */
  function RebalanceDates(ix: seq<int>): seq<int>
    requires |ix| > CUTOFF_POSITION && StrictlyIncreasing(ix)
  {
    AtOrAfter(WeekEnds(ix), ix[CUTOFF_POSITION])
  }

  /**
   * The schedule holds exactly the dates of the index that are the last of their ISO week and not
   * before the cutoff, one per week, in date order.
   */
  lemma RebalanceDatesCorrect(ix: seq<int>)
    requires |ix| > CUTOFF_POSITION && StrictlyIncreasing(ix)
    ensures forall d :: d in RebalanceDates(ix) <==> LastOfWeek(ix, d) && d >= ix[CUTOFF_POSITION]
    ensures WeeksIncreasing(RebalanceDates(ix))
    ensures StrictlyIncreasing(RebalanceDates(ix))
  {
    var w := WeekEnds(ix);
    WeekEndsCorrect(ix);
    AtOrAfterCorrect(w, ix[CUTOFF_POSITION]);
    WeeksIncreasingDates(RebalanceDates(ix));
  }

  /** Two dates of the schedule never share an ISO week. */
  lemma OneDatePerWeek(ix: seq<int>, i: nat, j: nat)
    requires |ix| > CUTOFF_POSITION && StrictlyIncreasing(ix)
    requires i < j < |RebalanceDates(ix)|
    ensures IsoWeek(RebalanceDates(ix)[i]) != IsoWeek(RebalanceDates(ix)[j])
  {
    RebalanceDatesCorrect(ix);
  }

  /** A date in an earlier week than every date of `f` can go in front of `f`. */
  lemma ConsWeeksIncreasing(x: int, f: seq<int>)
    requires WeeksIncreasing(f)
    requires forall y :: y in f ==> IsoWeek(x) < IsoWeek(y)
    ensures WeeksIncreasing([x] + f)
  {
    var r := [x] + f;
    forall i, j | 0 <= i < j < |r| ensures IsoWeek(r[i]) < IsoWeek(r[j]) {
      assert r[j] == f[j - 1];
      if i > 0 {
        assert r[i] == f[i - 1];
      }
    }
  }

  /** In a sorted index, every later date is larger and lies in the second date's week or after. */
  lemma LaterDates(ix: seq<int>)
    requires StrictlyIncreasing(ix) && |ix| > 1
    ensures StrictlyIncreasing(ix[1..])
    ensures forall e :: e in ix[1..] ==> ix[0] < e && IsoWeek(ix[1]) <= IsoWeek(e)
    ensures IsoWeek(ix[0]) <= IsoWeek(ix[1])
  {
    var rest := ix[1..];
    forall e | e in rest ensures ix[0] < e && IsoWeek(ix[1]) <= IsoWeek(e) {
      var k :| 0 <= k < |rest| && rest[k] == e;
      assert ix[k + 1] == e;
      if k > 0 {
        IsoWeekMonotone(ix[1], e);
      }
    }
    IsoWeekMonotone(ix[0], ix[1]);
  }

  /** `WeekEnds` keeps exactly the last date of each week. */
  lemma {:induction false} WeekEndsMembers(ix: seq<int>)
    requires StrictlyIncreasing(ix)
    ensures forall d :: d in WeekEnds(ix) <==> LastOfWeek(ix, d)
  {
    if |ix| > 1 {
      var a, rest := ix[0], ix[1..];
      assert ix == [a] + rest;
      LaterDates(ix);
      WeekEndsMembers(rest);
      var head := if IsoWeek(ix[1]) != IsoWeek(a) then [a] else [];
      var w := WeekEnds(rest);
      assert WeekEnds(ix) == head + w;
      forall d ensures d in WeekEnds(ix) <==> LastOfWeek(ix, d) {
        if d in rest {
          assert LastOfWeek(ix, d) <==> LastOfWeek(rest, d);
          if d == a {
            assert false;
          }
          assert d in WeekEnds(ix) <==> d in w;
        } else if d == a {
          assert a !in w;
          if IsoWeek(ix[1]) != IsoWeek(a) {
            forall e | e in ix && IsoWeek(e) == IsoWeek(a) ensures e <= a {
              assert e == a || e in rest;
            }
          } else {
            assert ix[1] in ix && ix[1] > a;
          }
        } else {
          assert d !in ix;
        }
      }
    }
  }

  /** `WeekEnds` of a sorted index lies in strictly increasing weeks. */
  lemma {:induction false} WeekEndsIncreasing(ix: seq<int>)
    requires StrictlyIncreasing(ix)
    ensures WeeksIncreasing(WeekEnds(ix))
  {
    if |ix| > 1 {
      var rest := ix[1..];
      LaterDates(ix);
      WeekEndsIncreasing(rest);
      WeekEndsMembers(rest);
      var w := WeekEnds(rest);
      if IsoWeek(ix[1]) != IsoWeek(ix[0]) {
        forall y | y in w ensures IsoWeek(ix[0]) < IsoWeek(y) {
          assert LastOfWeek(rest, y);
        }
        ConsWeeksIncreasing(ix[0], w);
      } else {
        assert WeekEnds(ix) == w;
      }
    }
  }

  lemma WeekEndsCorrect(ix: seq<int>)
    requires StrictlyIncreasing(ix)
    ensures forall d :: d in WeekEnds(ix) <==> LastOfWeek(ix, d)
    ensures WeeksIncreasing(WeekEnds(ix))
  {
    WeekEndsMembers(ix);
    WeekEndsIncreasing(ix);
  }

  /** The filter keeps exactly the dates not before the cutoff. */
  lemma {:induction false} AtOrAfterMembers(s: seq<int>, cutoff: int)
    ensures forall d :: d in AtOrAfter(s, cutoff) <==> d in s && d >= cutoff
  {
    if s != [] {
      assert s == [s[0]] + s[1..];
      AtOrAfterMembers(s[1..], cutoff);
    }
  }

  /** The filter keeps the dates in their order, so weeks stay strictly increasing. */
  lemma {:induction false} AtOrAfterIncreasing(s: seq<int>, cutoff: int)
    requires WeeksIncreasing(s)
    ensures WeeksIncreasing(AtOrAfter(s, cutoff))
  {
    if s != [] {
      var rest := s[1..];
      forall y | y in rest ensures IsoWeek(s[0]) < IsoWeek(y) {
        var k :| 0 <= k < |rest| && rest[k] == y;
        assert s[k + 1] == y;
      }
      assert WeeksIncreasing(rest) by {
        forall i, j | 0 <= i < j < |rest| ensures IsoWeek(rest[i]) < IsoWeek(rest[j]) {
          assert rest[i] == s[i + 1] && rest[j] == s[j + 1];
        }
      }
      AtOrAfterIncreasing(rest, cutoff);
      AtOrAfterMembers(rest, cutoff);
      if s[0] >= cutoff {
        ConsWeeksIncreasing(s[0], AtOrAfter(rest, cutoff));
      }
    }
  }

  lemma AtOrAfterCorrect(s: seq<int>, cutoff: int)
    requires WeeksIncreasing(s)
    ensures forall d :: d in AtOrAfter(s, cutoff) <==> d in s && d >= cutoff
    ensures WeeksIncreasing(AtOrAfter(s, cutoff))
  {
    AtOrAfterMembers(s, cutoff);
    AtOrAfterIncreasing(s, cutoff);
  }

  /** Dates in strictly later weeks are strictly later dates. */
  lemma WeeksIncreasingDates(s: seq<int>)
    requires WeeksIncreasing(s)
    ensures StrictlyIncreasing(s)
  {
    forall i, j | 0 <= i < j < |s| ensures s[i] < s[j] {
      if s[j] <= s[i] {
        IsoWeekMonotone(s[j], s[i]);
      }
    }
  }
}
