/**
 * The `annual_returns` dictionary of backtest.py: per calendar year, the index values at the start
 * and at the end of that year's steps. A Python dict keeps its keys in insertion order, so it is
 * modelled as a sequence of year entries with distinct years.
 */
module Buckets {
  import opened Wrappers

  /** One `annual_returns[year]` value. */
  datatype Bucket = Bucket(portStart: real, bmStart: real, portEnd: real, bmEnd: real)

  datatype YearBucket = YearBucket(year: int, bucket: Bucket)

  /** No year has two entries. */
  predicate DistinctYears(entries: seq<YearBucket>)
  {
    forall i, j :: 0 <= i < j < |entries| ==> entries[i].year != entries[j].year
  }

  /** `annual[y]` when `y in annual`, else `None`. */
  function Find(entries: seq<YearBucket>, y: int): (r: Option<Bucket>)
    ensures r.Some? <==> exists i :: 0 <= i < |entries| && entries[i].year == y
    ensures r.Some? ==> YearBucket(y, r.value) in entries
  {
    if entries == [] then None
    else if entries[0].year == y then Some(entries[0].bucket)
    else
      var r := Find(entries[1..], y);
      assert forall i :: 1 <= i < |entries| ==> entries[i] == entries[1..][i - 1];
      r
  }

  /** `annual[y] = b`: the entry of `y` takes the new value in place, or a new entry is appended. */
  function Store(entries: seq<YearBucket>, y: int, b: Bucket): seq<YearBucket>
  {
    if entries == [] then [YearBucket(y, b)]
    else if entries[0].year == y then [YearBucket(y, b)] + entries[1..]
    else [entries[0]] + Store(entries[1..], y, b)
  }

  /** After `annual[y] = b`, the dictionary maps `y` to `b` and every other year as before. */
  lemma {:induction false} StoreFind(entries: seq<YearBucket>, y: int, b: Bucket)
    ensures Find(Store(entries, y, b), y) == Some(b)
    ensures forall z :: z != y ==> Find(Store(entries, y, b), z) == Find(entries, z)
  {
    if entries != [] && entries[0].year != y {
      StoreFind(entries[1..], y, b);
    } else if entries != [] {
      assert Store(entries, y, b)[1..] == entries[1..];
    }
  }

  /** `annual[y] = b` keeps every entry's year in place and appends `y` when it is new. */
  lemma {:induction false} StoreYears(entries: seq<YearBucket>, y: int, b: Bucket)
    ensures |Store(entries, y, b)| == if Find(entries, y).Some? then |entries| else |entries| + 1
    ensures forall i :: 0 <= i < |entries| ==> Store(entries, y, b)[i].year == entries[i].year
    ensures Find(entries, y).None? ==> Store(entries, y, b)[|entries|] == YearBucket(y, b)
  {
    if entries != [] && entries[0].year != y {
      var rest := entries[1..];
      StoreYears(rest, y, b);
      var s := Store(entries, y, b);
      assert s == [entries[0]] + Store(rest, y, b);
      forall i | 1 <= i < |entries| ensures s[i].year == entries[i].year {
        assert s[i] == Store(rest, y, b)[i - 1] && entries[i] == rest[i - 1];
      }
    }
  }

  /** `annual[y] = b` never gives a year two entries. */
  lemma StoreDistinct(entries: seq<YearBucket>, y: int, b: Bucket)
    requires DistinctYears(entries)
    ensures DistinctYears(Store(entries, y, b))
  {
    StoreYears(entries, y, b);
  }

  /** Storing twice under the same year keeps only the second value. */
  lemma {:induction false} StoreTwice(entries: seq<YearBucket>, y: int, a: Bucket, b: Bucket)
    ensures Store(Store(entries, y, a), y, b) == Store(entries, y, b)
  {
    if entries != [] && entries[0].year != y {
      StoreTwice(entries[1..], y, a, b);
      assert Store(entries, y, a) == [entries[0]] + Store(entries[1..], y, a);
    } else if entries != [] {
      assert Store(entries, y, a)[1..] == entries[1..];
    }
  }

  /** `annual.keys()`, in insertion order. */
  function Keys(entries: seq<YearBucket>): (r: seq<int>)
    ensures |r| == |entries|
    ensures forall i :: 0 <= i < |entries| ==> r[i] == entries[i].year
    ensures forall y :: y in r <==> Find(entries, y).Some?
  {
    seq(|entries|, i requires 0 <= i < |entries| => entries[i].year)
  }

  /** With distinct years, every entry is what its year looks up. */
  lemma {:induction false} FindMember(entries: seq<YearBucket>, e: YearBucket)
    requires DistinctYears(entries) && e in entries
    ensures Find(entries, e.year) == Some(e.bucket)
  {
    if entries[0] != e {
      var rest := entries[1..];
      assert e in rest;
      var j :| 0 <= j < |rest| && rest[j] == e;
      assert entries[j + 1] == e;
      assert entries[0].year != e.year;
      assert DistinctYears(rest) by {
        forall i, k | 0 <= i < k < |rest| ensures rest[i].year != rest[k].year {
          assert rest[i] == entries[i + 1] && rest[k] == entries[k + 1];
        }
      }
      FindMember(rest, e);
    }
  }
}
