/** The latency statistics: the one-pass variance of the C++ DNS test and the two-pass standard
    deviation of the Android tester, over exact numbers.  Both report a standard deviation; its
    square is modelled, so that no root is taken. */
module LatencyStats {
  import opened Common

  /** The sample that stands for a lost packet. */
  const LOST := -1

  // ---------- what there is to compute ----------

  function Received(samples: seq<int>): (r: seq<int>)
    ensures LOST !in r
  {
    if samples == [] then []
    else Received(samples[..|samples| - 1]) + (if samples[|samples| - 1] == LOST then [] else [samples[|samples| - 1]])
  }

  function LostCount(samples: seq<int>): nat {
    if samples == [] then 0
    else LostCount(samples[..|samples| - 1]) + if samples[|samples| - 1] == LOST then 1 else 0
  }

  lemma {:induction false} LostOrReceived(samples: seq<int>)
    ensures |Received(samples)| + LostCount(samples) == |samples|
  {
    if samples != [] {
      LostOrReceived(samples[..|samples| - 1]);
    }
  }

  lemma CountOneMore(samples: seq<int>, x: int)
    requires samples != []
    ensures multiset(samples)[x] ==
      multiset(samples[..|samples| - 1])[x] + if samples[|samples| - 1] == x then 1 else 0
  {
    assert samples == samples[..|samples| - 1] + [samples[|samples| - 1]];
  }

  /** The samples lost are those of minus one, and all others are received, none twice. */
  lemma {:induction false} ReceivedAndLost(samples: seq<int>, x: int)
    ensures LostCount(samples) == multiset(samples)[-1]
    ensures multiset(Received(samples))[x] == if x == -1 then 0 else multiset(samples)[x]
  {
    if samples != [] {
      ReceivedAndLost(samples[..|samples| - 1], x);
      CountOneMore(samples, -1);
      CountOneMore(samples, x);
    }
  }

  /** The samples received are in the order of the samples. */
  lemma {:induction false} ReceivedConcat(a: seq<int>, b: seq<int>)
    ensures Received(a + b) == Received(a) + Received(b)
  {
    if b == [] {
      assert a + b == a;
    } else {
      ReceivedConcat(a, b[..|b| - 1]);
      assert (a + b)[..|a + b| - 1] == a + b[..|b| - 1];
      Assoc(Received(a), Received(b[..|b| - 1]), if b[|b| - 1] == LOST then [] else [b[|b| - 1]]);
    }
  }

  function Sum(xs: seq<int>): int {
    if xs == [] then 0 else Sum(xs[..|xs| - 1]) + xs[|xs| - 1]
  }

  function SumSquares(xs: seq<int>): int {
    if xs == [] then 0 else SumSquares(xs[..|xs| - 1]) + xs[|xs| - 1] * xs[|xs| - 1]
  }

  function Square(x: real): real { x * x }

  /** The sum of squared distances from m. */
  function Spread(xs: seq<int>, m: real): real {
    if xs == [] then 0.0 else Spread(xs[..|xs| - 1], m) + Square(xs[|xs| - 1] as real - m)
  }

  /** n times x, added up. */
  function Times(x: real, n: nat): real {
    if n == 0 then 0.0 else Times(x, n - 1) + x
  }

  lemma {:induction false} TimesIsProduct(x: real, n: nat)
    ensures Times(x, n) == x * n as real
  {
    if n > 0 {
      TimesIsProduct(x, n - 1);
      assert x * n as real == x * (n - 1) as real + x;
    }
  }

  function Mean(xs: seq<int>): real
    requires xs != []
  {
    Sum(xs) as real / |xs| as real
  }

  /** The variance of a sample. */
  function Variance(xs: seq<int>): real
    requires |xs| >= 2
  {
    Spread(xs, Mean(xs)) / (|xs| as real - 1.0)
  }

  /** Of the samples received, if there are enough of them. */
  function MeanOf(samples: seq<int>): Option<real> {
    if Received(samples) == [] then None else Some(Mean(Received(samples)))
  }

  function VarianceOf(samples: seq<int>): Option<real> {
    if |Received(samples)| < 2 then None else Some(Variance(Received(samples)))
  }

  // ---------- the identity behind the one-pass form ----------

  /** The square expanded: q, s and n are the sum of squares, the sum and the number of the values. */
  predicate Expanded(spread: real, q: real, s: real, n: real, m: real) {
    spread == q - 2.0 * m * s + n * (m * m)
  }

  lemma ExpandStep(spread: real, q: real, s: real, n: real, m: real, x: real,
                   spread': real, q': real, s': real, n': real)
    requires Expanded(spread, q, s, n, m)
    requires spread' == spread + Square(x - m) && q' == q + Square(x) && s' == s + x && n' == n + 1.0
    ensures Expanded(spread', q', s', n', m)
  {
    assert Square(x - m) == x * x - 2.0 * m * x + m * m;
    assert 2.0 * m * (s + x) == 2.0 * m * s + 2.0 * m * x;
    assert (n + 1.0) * (m * m) == n * (m * m) + m * m;
  }

  lemma IntProduct(a: int, b: int)
    ensures (a * b) as real == a as real * b as real
  {
  }

  lemma IntSquare(a: int)
    ensures (a * a) as real == Square(a as real)
  {
  }

  lemma {:induction false} SpreadExpands(xs: seq<int>, m: real)
    ensures Expanded(Spread(xs, m), SumSquares(xs) as real, Sum(xs) as real, |xs| as real, m)
  {
    if xs == [] {
      assert Expanded(0.0, 0.0, 0.0, 0.0, m);
    } else {
      var before, x := xs[..|xs| - 1], xs[|xs| - 1];
      SpreadExpands(before, m);
      Appended(xs);
      ExpandStep(Spread(before, m), SumSquares(before) as real, Sum(before) as real, |before| as real, m, x as real,
                 Spread(xs, m), SumSquares(xs) as real, Sum(xs) as real, |xs| as real);
    }
  }

  lemma Appended(xs: seq<int>)
    requires xs != []
    ensures var before, x := xs[..|xs| - 1], xs[|xs| - 1];
            && Sum(xs) as real == Sum(before) as real + x as real
            && SumSquares(xs) as real == SumSquares(before) as real + Square(x as real)
            && |xs| as real == |before| as real + 1.0
  {
    IntSquare(xs[|xs| - 1]);
  }

  lemma {:induction false} SpreadNotNegative(xs: seq<int>, m: real)
    ensures Spread(xs, m) >= 0.0
  {
    if xs != [] {
      SpreadNotNegative(xs[..|xs| - 1], m);
      SquareNotNegative(xs[|xs| - 1] as real - m);
    }
  }

  lemma SquareNotNegative(x: real)
    ensures Square(x) >= 0.0
  {
  }

  lemma ScaleExpansion(n: real, s: real, q: real, m: real, spread: real)
    requires n * m == s && Expanded(spread, q, s, n, m)
    ensures n * q - s * s == n * spread
  {
    calc {
      n * spread;
      n * q - n * (2.0 * m * s) + n * (n * (m * m));
      { assert n * (2.0 * m * s) == 2.0 * ((n * m) * s); assert n * (n * (m * m)) == (n * m) * (n * m); }
      n * q - 2.0 * (s * s) + s * s;
      n * q - s * s;
    }
  }

  lemma MeanTimesCount(xs: seq<int>)
    requires xs != []
    ensures |xs| as real * Mean(xs) == Sum(xs) as real
  {
  }

  lemma Divided(q: real, a: real, n: real)
    requires n != 0.0 && q == a / n
    ensures q * n == a
  {
  }

  lemma VarianceTimesCount(xs: seq<int>)
    requires |xs| >= 2
    ensures Variance(xs) * (|xs| - 1) as real == Spread(xs, Mean(xs))
  {
    Divided(Variance(xs), Spread(xs, Mean(xs)), |xs| as real - 1.0);
  }

  lemma OnePassAsReal(n: int, q: int, s: int)
    ensures (n * q - s * s) as real == n as real * q as real - s as real * s as real
  {
    IntProduct(n, q);
    IntProduct(s, s);
  }

  lemma OnePassOf(n: int, q: int, s: int, m: real, spread: real, n': real, q': real, s': real)
    requires n' == n as real && q' == q as real && s' == s as real
    requires n' * m == s' && Expanded(spread, q', s', n', m)
    ensures (n * q - s * s) as real == n' * spread
  {
    ScaleExpansion(n', s', q', m, spread);
    OnePassAsReal(n, q, s);
  }

  /** n * sumsq - sum * sum is n times the spread around the mean. */
  lemma OnePassIsSpread(xs: seq<int>, m: real)
    requires |xs| as real * m == Sum(xs) as real
    ensures (|xs| * SumSquares(xs) - Sum(xs) * Sum(xs)) as real == |xs| as real * Spread(xs, m)
  {
    SpreadExpands(xs, m);
    OnePassOf(|xs|, SumSquares(xs), Sum(xs), m, Spread(xs, m), |xs| as real, SumSquares(xs) as real, Sum(xs) as real);
  }

  /** Over exact arithmetic the C++ form never takes the root of a negative number. */
  lemma OnePassNotNegative(xs: seq<int>)
    ensures |xs| * SumSquares(xs) - Sum(xs) * Sum(xs) >= 0
  {
    if xs != [] {
      MeanTimesCount(xs);
      NotNegativeAround(xs, Mean(xs));
    }
  }

  lemma NotNegativeAround(xs: seq<int>, m: real)
    requires |xs| as real * m == Sum(xs) as real
    ensures |xs| * SumSquares(xs) - Sum(xs) * Sum(xs) >= 0
  {
    OnePassIsSpread(xs, m);
    SpreadNotNegative(xs, m);
    Product(|xs| as real, Spread(xs, m));
  }

  lemma Product(a: real, b: real)
    requires a >= 0.0 && b >= 0.0
    ensures a * b >= 0.0
  {
  }

  /** The one-pass form for n values with sum s and sum of squares q. */
  function OnePass(n: real, q: real, s: real): real
    requires n > 1.0
  {
    NotZero(n, n - 1.0);
    1.0 / (n * (n - 1.0)) * (n * q - s * s)
  }

  lemma NotZero(a: real, b: real)
    requires a > 0.0 && b > 0.0
    ensures a * b != 0.0
  {
  }

  lemma Quotient(n: real, k: real, t: real)
    requires n > 0.0 && k > 0.0
    ensures n * k != 0.0 && 1.0 / (n * k) * (n * t) == t / k
  {
    NotZero(n, k);
    assert 1.0 / (n * k) * (n * t) == (n * t) / (n * k);
  }

  lemma OnePassQuotient(n: real, q: real, s: real, m: real, spread: real)
    requires n > 1.0 && n * m == s && Expanded(spread, q, s, n, m)
    ensures OnePass(n, q, s) == spread / (n - 1.0)
  {
    ScaleExpansion(n, s, q, m, spread);
    Quotient(n, n - 1.0, spread);
  }

  /** The one-pass quotient is the variance. */
  lemma OnePassIsVariance(xs: seq<int>)
    requires |xs| >= 2
    ensures OnePass(|xs| as real, SumSquares(xs) as real, Sum(xs) as real) == Variance(xs)
  {
    MeanTimesCount(xs);
    SpreadExpands(xs, Mean(xs));
    OnePassQuotient(|xs| as real, SumSquares(xs) as real, Sum(xs) as real, Mean(xs), Spread(xs, Mean(xs)));
  }

  // ---------- the programs ----------

  /** The running sums of calc_half_results. */
  datatype Sums = Sums(n: nat, sum: int, sumsq: int)

  function SumsOf(samples: seq<int>): Sums {
    Sums(|Received(samples)|, Sum(Received(samples)), SumSquares(Received(samples)))
  }

  /** What becomes of the sums: no sample gives no average, fewer than two no deviation (the C++
      divides by zero there and gets not-a-number). */
  function Average(s: Sums): Option<real> {
    if s.n == 0 then None else Some(s.sum as real / s.n as real)
  }

  function Deviation(s: Sums): Option<real> {
    if s.n < 2 then None else Some(OnePass(s.n as real, s.sumsq as real, s.sum as real))
  }

  lemma DeviationIsVariance(xs: seq<int>)
    requires |xs| >= 2
    ensures Deviation(Sums(|xs|, Sum(xs), SumSquares(xs))) == Some(Variance(xs))
  {
    OnePassIsVariance(xs);
  }

  /** The numbers made from the sums are the mean and the variance of the received samples. */
  lemma SumsSuffice(samples: seq<int>)
    ensures Average(SumsOf(samples)) == MeanOf(samples) && Deviation(SumsOf(samples)) == VarianceOf(samples)
  {
    var r := Received(samples);
    if |r| >= 2 {
      DeviationIsVariance(r);
    }
  }

  /** The loop of calc_half_results. */
  method SumUp(samples: seq<int>, lostBefore: nat) returns (s: Sums, lost: nat)
    ensures lost == lostBefore + LostCount(samples)
    ensures s == SumsOf(samples)
  {
    var sum, sumsq, n := 0, 0, 0;
    lost := lostBefore;
    for i := 0 to |samples|
      invariant lost == lostBefore + LostCount(samples[..i])
      invariant n == |Received(samples[..i])|
      invariant sum == Sum(Received(samples[..i])) && sumsq == SumSquares(Received(samples[..i]))
    {
      OneSample(samples, i);
      if samples[i] == LOST {
        lost := lost + 1;
      } else {
        n := n + 1;
        sum := sum + samples[i];
        sumsq := sumsq + samples[i] * samples[i];
      }
    }
    assert samples[..|samples|] == samples;
    s := Sums(n, sum, sumsq);
  }

  lemma OneSample(samples: seq<int>, i: nat)
    requires i < |samples|
    ensures var before, after := samples[..i], samples[..i + 1];
            if samples[i] == LOST then
              Received(after) == Received(before) && LostCount(after) == LostCount(before) + 1
            else
              && LostCount(after) == LostCount(before) && |Received(after)| == |Received(before)| + 1
              && Sum(Received(after)) == Sum(Received(before)) + samples[i]
              && SumSquares(Received(after)) == SumSquares(Received(before)) + samples[i] * samples[i]
  {
    assert samples[..i + 1][..i] == samples[..i];
    var r := Received(samples[..i]);
    assert r + [] == r && (r + [samples[i]])[..|r|] == r;
  }

  /** calc_half_results, with the square of the deviation. */
  method CalcHalfResults(samples: seq<int>, lostBefore: nat)
    returns (average: Option<real>, variance: Option<real>, lost: nat)
    ensures lost == lostBefore + LostCount(samples)
    ensures average == MeanOf(samples) && variance == VarianceOf(samples)
  {
    var s;
    s, lost := SumUp(samples, lostBefore);
    SumsSuffice(samples);
    average, variance := Average(s), Deviation(s);
  }

  /** What standerdDev of the Android tester makes of a list, before the root: nothing to add up is
      divided by minus one, which is zero; a single value divides zero by zero. */
  function TwoPass(lst: seq<int>): Option<real> {
    if lst == [] then Some(0.0) else if |lst| == 1 then None else Some(Variance(lst))
  }

  method StandardDeviation(lst: seq<int>) returns (variance: Option<real>)
    ensures variance == TwoPass(lst)
  {
    var mean := 0.0;
    for i := 0 to |lst|
      invariant mean == Sum(lst[..i]) as real
    {
      assert lst[..i + 1][..i] == lst[..i];
      mean := mean + lst[i] as real;
    }
    assert lst[..|lst|] == lst;
    if lst != [] {
      mean := mean / |lst| as real; // not a number for an empty list, and then not used
    }
    var dev := 0.0;
    for i := 0 to |lst|
      invariant dev == Spread(lst[..i], mean)
    {
      assert lst[..i + 1][..i] == lst[..i];
      dev := dev + Square(lst[i] as real - mean);
    }
    if |lst| - 1 == 0 {
      return None;
    }
    variance := Some(dev / (|lst| - 1) as real);
  }

  /** The two programs report the same deviation for the received samples of a list exactly when
      there is one. */
  method BothAgree(samples: seq<int>) returns (cpp: Option<real>, java: Option<real>)
    ensures cpp == java <==> Received(samples) != []
    ensures Received(samples) == [] ==> cpp == None && java == Some(0.0)
    ensures cpp.Some? ==> cpp.value >= 0.0
  {
    var average, lost;
    average, cpp, lost := CalcHalfResults(samples, 0);
    java := StandardDeviation(Received(samples));
    if cpp.Some? {
      SpreadNotNegative(Received(samples), Mean(Received(samples)));
    }
  }

  /** With all packets lost they do not agree. */
  method AllLost() returns (cpp: Option<real>, java: Option<real>)
    ensures cpp == None && java == Some(0.0)
  {
    var lost: seq<int> := [LOST];
    assert lost[..0] == [] && Received(lost) == Received([]) + [];
    cpp, java := BothAgree(lost);
  }
}
