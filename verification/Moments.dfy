/** Mean and variance of a sample, from its sum and its sum of squares. */
module Moments {
  function Sum(values: seq<real>): real {
    if values == [] then 0.0 else Sum(values[..|values| - 1]) + values[|values| - 1]
  }

  function Squares(values: seq<real>): real {
    if values == [] then 0.0
    else
      Squares(values[..|values| - 1]) + Square(values[|values| - 1])
  }

  function Square(x: real): (r: real)
    ensures r >= 0.0
  {
    x * x
  }

  /** The squared distances of the values from `m`, added up. */
  function Spread(values: seq<real>, m: real): (r: real)
    ensures r >= 0.0
  {
    if values == [] then 0.0 else Spread(values[..|values| - 1], m) + Square(values[|values| - 1] - m)
  }

  /** What the spread about `m` must be, given the two sums of `n` values. */
  function SpreadBySums(squares: real, sum: real, n: real, m: real): real {
    squares - 2.0 * (m * sum) + n * Square(m)
  }

  lemma {:induction false} SpreadFromSums(values: seq<real>, m: real)
    ensures Spread(values, m) == SpreadBySums(Squares(values), Sum(values), |values| as real, m)
  {
    if values == [] {
      NoValues(m);
    } else {
      var p, v := values[..|values| - 1], values[|values| - 1];
      SpreadFromSums(p, m);
      OneMore(Squares(p), Sum(p), |p| as real, m, v);
      assert |values| as real == |p| as real + 1.0;
    }
  }

  lemma NoValues(m: real)
    ensures SpreadBySums(0.0, 0.0, 0.0, m) == 0.0
  {
  }

  lemma OneMore(squares: real, sum: real, n: real, m: real, v: real)
    ensures SpreadBySums(squares + Square(v), sum + v, n + 1.0, m) == SpreadBySums(squares, sum, n, m) + Square(v - m)
  {
    assert m * (sum + v) == m * sum + m * v;
    assert Square(v - m) == Square(v) - 2.0 * (m * v) + Square(m);
    assert (n + 1.0) * Square(m) == n * Square(m) + Square(m);
  }

  /** About the mean. */
  lemma SpreadOverCount(squares: real, sum: real, n: real)
    requires n > 0.0
    ensures squares / n - Square(sum / n) == SpreadBySums(squares, sum, n, sum / n) / n
  {
    var mean, v := sum / n, squares / n;
    assert mean * n == sum && v * n == squares;
    var spread := SpreadBySums(squares, sum, n, mean);
    assert mean * sum == n * Square(mean) by {
      assert mean * (mean * n) == n * (mean * mean);
    }
    assert spread == (v - Square(mean)) * n;
    QuotientOfProduct(v - Square(mean), n);
  }

  lemma QuotientOfProduct(a: real, n: real)
    requires n > 0.0
    ensures a * n / n == a
  {
  }

  /** The variance is the mean squared distance from the mean; so it is never negative, and the program's
      cut at zero never acts. */
  method ComputeMoments(values: seq<real>) returns (mean: real, variance: real)
    requires values != []
    ensures mean == Sum(values) / |values| as real
    ensures variance == Spread(values, mean) / |values| as real >= 0.0
  {
    var sum, sumSq := 0.0, 0.0;
    for i := 0 to |values|
      invariant sum == Sum(values[..i]) && sumSq == Squares(values[..i])
    {
      assert values[..i + 1][..i] == values[..i];
      sum := sum + values[i];
      sumSq := sumSq + Square(values[i]);
    }
    assert values[..|values|] == values;
    mean := sum / |values| as real;
    variance := sumSq / |values| as real - Square(mean);
    SpreadFromSums(values, mean);
    SpreadOverCount(sumSq, sum, |values| as real);
    QuotientSign(Spread(values, mean), |values| as real);
    if variance < 0.0 {
      variance := 0.0;
    }
  }

  lemma QuotientSign(a: real, n: real)
    requires a >= 0.0 && n > 0.0
    ensures a / n >= 0.0
  {
  }
}
