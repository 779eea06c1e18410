/** Sums, means and variances of sequences of reals (Python `sum`, `Series.mean`, `ndarray.std`). */
module Numeric {

  function Sum(s: seq<real>): real
  {
    if s == [] then 0.0 else Sum(s[..|s| - 1]) + s[|s| - 1]
  }

  /** Arithmetic mean of a non-empty sequence. */
  function Mean(s: seq<real>): real
    requires |s| > 0
  {
    Sum(s) / (|s| as real)
  }

  function Min(a: int, b: int): int
  {
    if a <= b then a else b
  }

  /** Per-element subtraction of a constant (NumPy `arr - c`). */
  function Shift(s: seq<real>, c: real): (r: seq<real>)
    ensures |r| == |s|
    ensures forall i :: 0 <= i < |s| ==> r[i] == s[i] - c
  {
    seq(|s|, i requires 0 <= i < |s| => s[i] - c)
  }

  function Product(a: real, b: real): real
  {
    a * b
  }

  function Square(x: real): real
  {
    x * x
  }

  function SquaredDeviations(s: seq<real>, m: real): seq<real>
  {
    seq(|s|, i requires 0 <= i < |s| => Square(s[i] - m))
  }

  /** Population variance, the square of NumPy's default `ndarray.std()`. */
  function Variance(s: seq<real>): real
    requires |s| > 0
  {
    Mean(SquaredDeviations(s, Mean(s)))
  }

  /** Every element of `s` is the same. */
  predicate AllEqual(s: seq<real>)
  {
    forall i :: 0 <= i < |s| ==> s[i] == s[0]
  }

  lemma {:induction false} SumAppend(a: seq<real>, b: seq<real>)
    ensures Sum(a + b) == Sum(a) + Sum(b)
    decreases |b|
  {
    if b == [] {
      assert a + b == a;
    } else {
      assert (a + b)[..|a + b| - 1] == a + b[..|b| - 1];
      SumAppend(a, b[..|b| - 1]);
    }
  }

  /** A sum of non-negative terms is non-negative, and zero only when every term is. */
  lemma {:induction false} SumNonNegative(s: seq<real>)
    requires forall i :: 0 <= i < |s| ==> s[i] >= 0.0
    ensures Sum(s) >= 0.0
    ensures Sum(s) == 0.0 <==> forall i :: 0 <= i < |s| ==> s[i] == 0.0
  {
    if s != [] {
      var p := s[..|s| - 1];
      SumNonNegative(p);
      assert forall i :: 0 <= i < |p| ==> p[i] == s[i];
    }
  }

  /** The sum of `n` copies of `c`. */
  lemma {:induction false} SumConstant(s: seq<real>, c: real)
    requires forall i :: 0 <= i < |s| ==> s[i] == c
    ensures Sum(s) == (|s| as real) * c
  {
    if s != [] {
      var p := s[..|s| - 1];
      assert forall i :: 0 <= i < |p| ==> p[i] == s[i];
      SumConstant(p, c);
    }
  }

  lemma MeanConstant(s: seq<real>, c: real)
    requires |s| > 0
    requires forall i :: 0 <= i < |s| ==> s[i] == c
    ensures Mean(s) == c
  {
    SumConstant(s, c);
  }

  /** A variance is never negative, and it is zero exactly when all elements are equal. */
  lemma VarianceZero(s: seq<real>)
    requires |s| > 0
    ensures Variance(s) >= 0.0
    ensures Variance(s) == 0.0 <==> AllEqual(s)
  {
    var m := Mean(s);
    var d := SquaredDeviations(s, m);
    assert forall i :: 0 <= i < |d| ==> d[i] >= 0.0 by {
      forall i | 0 <= i < |d| ensures d[i] >= 0.0 {
        SquareNonNegative(s[i] - m);
      }
    }
    SumNonNegative(d);
    if AllEqual(s) {
      MeanConstant(s, s[0]);
      assert forall i :: 0 <= i < |d| ==> d[i] == 0.0;
    }
    if Variance(s) == 0.0 {
      assert Sum(d) == 0.0;
      forall i | 0 <= i < |s| ensures s[i] == s[0] {
        assert d[i] == 0.0 && d[0] == 0.0;
        if s[i] - m != 0.0 {
          SquarePositive(s[i] - m);
        }
        if s[0] - m != 0.0 {
          SquarePositive(s[0] - m);
        }
      }
    }
  }

  lemma SquareNonNegative(x: real)
    ensures Square(x) >= 0.0
  {
    if x < 0.0 {
      assert x * x == (-x) * (-x);
    }
  }

  lemma ProductPositive(a: real, b: real)
    requires a > 0.0 && b > 0.0
    ensures Product(a, b) > 0.0
  {
    assert a * b > 0.0;
  }

  lemma SquarePositive(x: real)
    requires x != 0.0
    ensures Square(x) > 0.0
  {
    if x > 0.0 {
      ProductPositive(x, x);
    } else {
      ProductPositive(-x, -x);
      assert (-x) * (-x) == x * x;
    }
  }

  /** A mean of terms all above `c` is above `c`. */
  lemma MeanAbove(s: seq<real>, c: real)
    requires |s| > 0
    requires forall i :: 0 <= i < |s| ==> s[i] > c
    ensures Mean(s) > c
  {
    SumAbove(s, c);
    var n := |s| as real;
    assert Sum(s) / n > c by {
      assert Sum(s) > n * c;
    }
  }

  /** A sum of `n > 0` terms all above `c` exceeds `n * c`. */
  lemma {:induction false} SumAbove(s: seq<real>, c: real)
    requires |s| > 0
    requires forall i :: 0 <= i < |s| ==> s[i] > c
    ensures Sum(s) > (|s| as real) * c
  {
    var p := s[..|s| - 1];
    if p != [] {
      assert forall i :: 0 <= i < |p| ==> p[i] == s[i];
      SumAbove(p, c);
    }
  }
}
