/** How far a sampled indicator climbed, by the least-squares line through its samples; over the reals. */
module FittedRise {
  import opened Common

  function Sum(s: seq<real>): real {
    if s == [] then 0.0 else Sum(s[..|s| - 1]) + Last(s)
  }

  function Mean(s: seq<real>): real
    requires s != []
  {
    Sum(s) / |s| as real
  }

  /** range(n) */
  function Range(n: nat): seq<real> {
    seq(n, i => i as real)
  }

  function Product(a: seq<real>, b: seq<real>): seq<real>
    requires |a| == |b|
  {
    seq(|a|, i requires 0 <= i < |a| => a[i] * b[i])
  }

  function Shifted(s: seq<real>, center: real): seq<real> {
    seq(|s|, i requires 0 <= i < |s| => s[i] - center)
  }

  datatype Line = Line(slope: real, intercept: real)

  /** statistics.linear_regression(range(len(s)), s) */
  function LinearRegression(s: seq<real>): Line
    requires |s| >= 2
  {
    var dx, dy := Deviations(|s|), Shifted(s, Mean(s));
    SpreadIsPositive(|s|);
    var slope := Sum(Product(dx, dy)) / Sum(Product(dx, dx));
    Line(slope, Mean(s) - slope * Mean(Range(|s|)))
  }

  /** How far each of 0 to n - 1 is from their mean. */
  function Deviations(n: nat): (dx: seq<real>)
    requires n > 0
    ensures |dx| == n
  {
    Shifted(Range(n), Mean(Range(n)))
  }

  datatype Rise = Rise(start: real, end: real, rise: real)

  /** samples[settle:], a negative settle counting from the end. */
  function From(samples: seq<real>, settle: int): seq<real> {
    if settle >= |samples| then []
    else if settle >= 0 then samples[settle..]
    else if -settle >= |samples| then samples
    else samples[|samples| + settle..]
  }

  function Kept(samples: seq<real>, settle: int): seq<real> {
    if |samples| - settle >= 3 then From(samples, settle) else samples
  }

  function Growth(start: real, end: real): real {
    if start > 0.0 then end / start - 1.0 else 0.0
  }

  /** Where a line through n samples starts and ends, and the end over the start. */
  function Ends(line: Line, n: nat): Rise {
    var start, end := line.intercept, line.intercept + line.slope * (n - 1) as real;
    Rise(start, end, Growth(start, end))
  }

  /** fitted_rise */
  function Fitted(samples: seq<real>, settle: int): Rise {
    var kept := Kept(samples, settle);
    if |kept| < 2 then Rise(0.0, 0.0, 0.0) else Ends(LinearRegression(kept), |kept|)
  }

  // ---------------------------------------------------------------------------------------------
  // Sums

  predicate CombinesAt(r: seq<real>, a: real, p: seq<real>, b: real, q: seq<real>, i: nat)
    requires i < |r| == |p| == |q|
  {
    r[i] == a * p[i] + b * q[i]
  }

  /** r is a times p and b times q, element by element. */
  ghost predicate Combines(r: seq<real>, a: real, p: seq<real>, b: real, q: seq<real>) {
    |r| == |p| == |q| && forall i: nat :: i < |r| ==> CombinesAt(r, a, p, b, q, i)
  }

  lemma {:induction false} SumCombined(r: seq<real>, a: real, p: seq<real>, b: real, q: seq<real>)
    requires Combines(r, a, p, b, q)
    ensures Sum(r) == a * Sum(p) + b * Sum(q)
  {
    if r == [] {
    } else {
      var n := |r| - 1;
      forall i: nat | i < n ensures CombinesAt(r[..n], a, p[..n], b, q[..n], i) {
        assert CombinesAt(r, a, p, b, q, i);
      }
      SumCombined(r[..n], a, p[..n], b, q[..n]);
      assert CombinesAt(r, a, p, b, q, n);
      SplitProducts(a, Sum(p[..n]), p[n], b, Sum(q[..n]), q[n]);
    }
  }

  lemma SplitProducts(a: real, p: real, x: real, b: real, q: real, y: real)
    ensures a * (p + x) + b * (q + y) == (a * p + b * q) + (a * x + b * y)
  {
  }

  lemma {:induction false} SumConstant(r: seq<real>, c: real)
    requires forall i :: 0 <= i < |r| ==> r[i] == c
    ensures Sum(r) == |r| as real * c
  {
    if r == [] {
    } else {
      SumConstant(r[..|r| - 1], c);
    }
  }

  lemma {:induction false} SumNotNegative(r: seq<real>)
    requires forall i :: 0 <= i < |r| ==> r[i] >= 0.0
    ensures Sum(r) >= 0.0
    ensures Sum(r) == 0.0 ==> forall i :: 0 <= i < |r| ==> r[i] == 0.0
  {
    if r == [] {
    } else {
      var front := r[..|r| - 1];
      SumNotNegative(front);
      assert forall i :: 0 <= i < |front| ==> r[i] == front[i];
    }
  }

  /** A sum of squares is zero only if everything squared is. */
  lemma SumOfSquares(r: seq<real>)
    ensures Sum(Product(r, r)) >= 0.0
    ensures Sum(Product(r, r)) == 0.0 ==> forall i :: 0 <= i < |r| ==> r[i] == 0.0
  {
    forall i | 0 <= i < |r| ensures Product(r, r)[i] >= 0.0 && (Product(r, r)[i] == 0.0 ==> r[i] == 0.0) {
      Square(r[i], Product(r, r)[i]);
    }
    SumNotNegative(Product(r, r));
  }

  lemma {:induction false} SumCons(x: real, r: seq<real>)
    ensures Sum([x] + r) == x + Sum(r)
  {
    var s := [x] + r;
    if r == [] {
      assert s[..0] == [];
    } else {
      assert s[..|s| - 1] == [x] + r[..|r| - 1];
      SumCons(x, r[..|r| - 1]);
    }
  }

  lemma {:induction false} SumRange(n: nat)
    ensures Sum(Range(n)) == n as real * ((n as real - 1.0) / 2.0)
  {
    if n == 0 {
    } else {
      assert Range(n)[..n - 1] == Range(n - 1);
      SumRange(n - 1);
      Triangle(n as real, (n - 1) as real);
    }
  }

  lemma Triangle(n: real, x: real)
    requires x == n - 1.0
    ensures x * ((x - 1.0) / 2.0) + x == n * ((n - 1.0) / 2.0)
  {
  }

  lemma MeanRange(n: nat)
    requires n > 0
    ensures Mean(Range(n)) == (n as real - 1.0) / 2.0
  {
    SumRange(n);
    Quotient(Sum(Range(n)), n as real, (n as real - 1.0) / 2.0);
  }

  lemma Quotient(sum: real, n: real, half: real)
    requires n != 0.0 && sum == n * half
    ensures sum / n == half
  {
  }

  lemma MeanTimes(s: seq<real>)
    requires s != []
    ensures |s| as real * Mean(s) == Sum(s)
  {
  }

  lemma SumShifted(s: seq<real>)
    requires s != []
    ensures Sum(Shifted(s, Mean(s))) == 0.0
  {
    var ones := Ones(|s|);
    SumConstant(ones, 1.0);
    ShiftedCombines(s, Mean(s));
    SumCombined(Shifted(s, Mean(s)), 1.0, s, -Mean(s), ones);
    MeanTimes(s);
    Balanced(Sum(Shifted(s, Mean(s))), Sum(s), |s| as real, Mean(s), -Mean(s), Sum(ones));
  }

  lemma Balanced(total: real, sum: real, n: real, mean: real, down: real, ones: real)
    requires total == 1.0 * sum + down * ones && n * mean == sum && ones == n && down == -mean
    ensures total == 0.0
  {
    assert down * ones == -(n * mean);
  }

  function Ones(n: nat): seq<real> {
    seq(n, i => 1.0)
  }

  lemma ShiftedCombines(s: seq<real>, center: real)
    ensures Combines(Shifted(s, center), 1.0, s, -center, Ones(|s|))
  {
  }

  lemma SpreadIsPositive(n: nat)
    requires n >= 2
    ensures Sum(Product(Deviations(n), Deviations(n))) > 0.0
  {
    SumOfSquares(Deviations(n));
    assert Deviations(n)[1] == Deviations(n)[0] + 1.0;
  }

  lemma Positive(x: real, y: real, product: real)
    requires x > 0.0 && y > 0.0 && product == x * y
    ensures product > 0.0
  {
  }

  lemma Square(x: real, square: real)
    requires square == x * x
    ensures square >= 0.0
    ensures square == 0.0 ==> x == 0.0
  {
    if x > 0.0 {
      Positive(x, x, square);
    } else if x < 0.0 {
      Positive(-x, -x, square);
    }
  }

  // ---------------------------------------------------------------------------------------------
  // The fitted line is the best one

  function Residuals(s: seq<real>, line: Line): (r: seq<real>)
    ensures |r| == |s|
  {
    seq(|s|, i requires 0 <= i < |s| => s[i] - (line.intercept + line.slope * i as real))
  }

  function SquaredError(s: seq<real>, line: Line): real {
    Sum(Product(Residuals(s, line), Residuals(s, line)))
  }

  /** The normal equations: the residuals are centred, and uncorrelated with the position. */
  ghost predicate Fits(s: seq<real>, line: Line)
    requires s != []
  {
    var r := Residuals(s, line);
    Sum(r) == 0.0 && Sum(Product(Deviations(|s|), r)) == 0.0
  }

  lemma ResidualsCombine(s: seq<real>, line: Line, down: real)
    requires s != [] && line.intercept == Mean(s) - line.slope * Mean(Range(|s|)) && down == -line.slope
    ensures Combines(Residuals(s, line), 1.0, Shifted(s, Mean(s)), down, Deviations(|s|))
  {
  }

  lemma ProductCombines(dx: seq<real>, r: seq<real>, a: real, p: seq<real>, b: real, q: seq<real>)
    requires |dx| == |r| && Combines(r, a, p, b, q)
    ensures Combines(Product(dx, r), a, Product(dx, p), b, Product(dx, q))
  {
    forall i: nat | i < |r| ensures CombinesAt(Product(dx, r), a, Product(dx, p), b, Product(dx, q), i) {
      assert CombinesAt(r, a, p, b, q, i);
      Rearranged(dx[i], a, p[i], b, q[i]);
    }
  }

  lemma Rearranged(d: real, a: real, p: real, b: real, q: real)
    ensures d * (a * p + b * q) == a * (d * p) + b * (d * q)
  {
  }

  lemma Centred(r: seq<real>, dy: seq<real>, down: real, dx: seq<real>)
    requires Combines(r, 1.0, dy, down, dx) && Sum(dy) == 0.0 && Sum(dx) == 0.0
    ensures Sum(r) == 0.0
  {
    SumCombined(r, 1.0, dy, down, dx);
  }

  /** The slope is the covariance over the spread. */
  ghost predicate IsSlope(dx: seq<real>, dy: seq<real>, slope: real)
    requires |dx| == |dy|
  {
    slope * Sum(Product(dx, dx)) == Sum(Product(dx, dy))
  }

  lemma Uncorrelated(r: seq<real>, dy: seq<real>, slope: real, down: real, dx: seq<real>)
    requires Combines(r, 1.0, dy, down, dx) && down == -slope && IsSlope(dx, dy, slope)
    ensures Sum(Product(dx, r)) == 0.0
  {
    ProductCombines(dx, r, 1.0, dy, down, dx);
    SumCombined(Product(dx, r), 1.0, Product(dx, dy), down, Product(dx, dx));
    Opposite(slope, down, Sum(Product(dx, dx)));
  }

  lemma Opposite(slope: real, down: real, spread: real)
    requires down == -slope
    ensures slope * spread + down * spread == 0.0
  {
  }

  /** How the regression chooses its line. */
  ghost predicate Regresses(s: seq<real>, line: Line)
    requires s != []
  {
    && line.intercept == Mean(s) - line.slope * Mean(Range(|s|))
    && IsSlope(Deviations(|s|), Shifted(s, Mean(s)), line.slope)
  }

  lemma CentredResiduals(s: seq<real>, line: Line)
    requires s != [] && Regresses(s, line)
    ensures Sum(Residuals(s, line)) == 0.0
  {
    ResidualsCombine(s, line, -line.slope);
    SumShifted(s);
    SumShifted(Range(|s|));
    Centred(Residuals(s, line), Shifted(s, Mean(s)), -line.slope, Deviations(|s|));
  }

  lemma UncorrelatedResiduals(s: seq<real>, line: Line)
    requires s != [] && Regresses(s, line)
    ensures Sum(Product(Deviations(|s|), Residuals(s, line))) == 0.0
  {
    ResidualsCombine(s, line, -line.slope);
    Uncorrelated(Residuals(s, line), Shifted(s, Mean(s)), line.slope, -line.slope, Deviations(|s|));
  }

  lemma Ratio(a: real, b: real)
    requires b != 0.0
    ensures a / b * b == a && b * (a / b) == a
  {
  }

  lemma RegressionRegresses(s: seq<real>)
    requires |s| >= 2
    ensures Regresses(s, LinearRegression(s))
  {
    var dx := Deviations(|s|);
    SpreadIsPositive(|s|);
    Ratio(Sum(Product(dx, Shifted(s, Mean(s)))), Sum(Product(dx, dx)));
  }

  lemma RegressionFits(s: seq<real>)
    requires |s| >= 2
    ensures Fits(s, LinearRegression(s))
  {
    RegressionRegresses(s);
    RegressedFits(s, LinearRegression(s));
  }

  lemma RegressedFits(s: seq<real>, line: Line)
    requires s != [] && Regresses(s, line)
    ensures Fits(s, line)
  {
    CentredResiduals(s, line);
    UncorrelatedResiduals(s, line);
  }

  /** How far apart two lines are at each position. */
  function Gaps(n: nat, line: Line, other: Line): (m: seq<real>)
    ensures |m| == n
  {
    seq(n, i requires 0 <= i < n =>
      line.intercept + line.slope * i as real - (other.intercept + other.slope * i as real))
  }

  lemma GapsCombine(n: nat, line: Line, other: Line, e: real, f: real)
    requires n > 0 && f == line.slope - other.slope
    requires e == line.intercept - other.intercept + f * Mean(Range(n))
    ensures Combines(Gaps(n, line, other), e, Ones(n), f, Deviations(n))
  {
  }

  lemma ProductCommutes(a: seq<real>, b: seq<real>)
    requires |a| == |b|
    ensures Product(a, b) == Product(b, a)
  {
  }

  lemma ProductOnes(a: seq<real>)
    ensures Product(a, Ones(|a|)) == a
  {
  }

  lemma CrossVanishes(r: seq<real>, m: seq<real>, e: real, f: real)
    requires |r| == |m| > 0 && Sum(r) == 0.0 && Sum(Product(Deviations(|r|), r)) == 0.0
    requires Combines(m, e, Ones(|m|), f, Deviations(|m|))
    ensures Sum(Product(r, m)) == 0.0
  {
    ProductCombines(r, m, e, Ones(|r|), f, Deviations(|r|));
    ProductOnes(r);
    ProductCommutes(r, Deviations(|r|));
    SumCombined(Product(r, m), e, r, f, Product(r, Deviations(|r|)));
  }

  lemma SumOfSquaredSum(r: seq<real>, m: seq<real>, q: seq<real>)
    requires Combines(q, 1.0, r, 1.0, m)
    ensures Sum(Product(q, q)) == Sum(Product(r, r)) + 2.0 * Sum(Product(r, m)) + Sum(Product(m, m))
  {
    ProductCombines(q, q, 1.0, r, 1.0, m);
    SumCombined(Product(q, q), 1.0, Product(q, r), 1.0, Product(q, m));
    ProductCommutes(q, r);
    ProductCombines(r, q, 1.0, r, 1.0, m);
    SumCombined(Product(r, q), 1.0, Product(r, r), 1.0, Product(r, m));
    ProductCommutes(q, m);
    ProductCombines(m, q, 1.0, r, 1.0, m);
    SumCombined(Product(m, q), 1.0, Product(m, r), 1.0, Product(m, m));
    ProductCommutes(m, r);
  }

  lemma ResidualsDiffer(s: seq<real>, fit: Line, other: Line)
    ensures Combines(Residuals(s, other), 1.0, Residuals(s, fit), 1.0, Gaps(|s|, fit, other))
  {
  }

  /** Any line's error is the fitted line's and the squared gaps between the two. */
  lemma ErrorDecomposes(s: seq<real>, fit: Line, other: Line)
    requires s != [] && Fits(s, fit)
    ensures SquaredError(s, other) ==
            SquaredError(s, fit) + Sum(Product(Gaps(|s|, fit, other), Gaps(|s|, fit, other)))
  {
    var m, f := Gaps(|s|, fit, other), fit.slope - other.slope;
    var e := fit.intercept - other.intercept + f * Mean(Range(|s|));
    ResidualsDiffer(s, fit, other);
    SumOfSquaredSum(Residuals(s, fit), m, Residuals(s, other));
    GapsCombine(|s|, fit, other, e, f);
    CrossVanishes(Residuals(s, fit), m, e, f);
  }

  lemma SameLine(n: nat, fit: Line, other: Line)
    requires n >= 2 && forall i :: 0 <= i < n ==> Gaps(n, fit, other)[i] == 0.0
    ensures other == fit
  {
    assert Gaps(n, fit, other)[0] == 0.0 && Gaps(n, fit, other)[1] == 0.0;
  }

  lemma BestLine(s: seq<real>, fit: Line, other: Line)
    requires |s| >= 2 && Fits(s, fit)
    ensures SquaredError(s, fit) <= SquaredError(s, other)
    ensures SquaredError(s, fit) == SquaredError(s, other) ==> other == fit
  {
    ErrorDecomposes(s, fit, other);
    SumOfSquares(Gaps(|s|, fit, other));
    if SquaredError(s, fit) == SquaredError(s, other) {
      SameLine(|s|, fit, other);
    }
  }

  /** No line has a smaller squared error than the fitted one, and no other line has as small a one. */
  lemma FittedLineIsBest(s: seq<real>, other: Line)
    requires |s| >= 2
    ensures SquaredError(s, LinearRegression(s)) <= SquaredError(s, other)
    ensures SquaredError(s, LinearRegression(s)) == SquaredError(s, other) ==> other == LinearRegression(s)
  {
    RegressionFits(s);
    BestLine(s, LinearRegression(s), other);
  }

  // ---------------------------------------------------------------------------------------------
  // What the three numbers mean

  /** The middle of the fitted line is the samples' mean. */
  lemma MiddleIsMean(samples: seq<real>, settle: int)
    requires |Kept(samples, settle)| >= 2
    ensures var r := Fitted(samples, settle);
            (r.start + r.end) / 2.0 == Mean(Kept(samples, settle))
  {
    var s := Kept(samples, settle);
    var line, n := LinearRegression(s), |s| as real;
    MeanRange(|s|);
    Middle(Mean(s), line.slope, n);
  }

  lemma Middle(m: real, slope: real, n: real)
    ensures var a := m - slope * ((n - 1.0) / 2.0);
            (a + (a + slope * (n - 1.0))) / 2.0 == m
  {
  }

  /** Samples on a line are their own trend: it runs from the first to the last, and rises by their ratio. */
  lemma StraightSamples(samples: seq<real>, line: Line)
    requires |samples| >= 2
    requires forall i :: 0 <= i < |samples| ==> samples[i] == line.intercept + line.slope * i as real
    ensures var r, first, last := Fitted(samples, 0), samples[0], Last(samples);
            && r.start == first && r.end == last
            && (first > 0.0 ==> r.rise == last / first - 1.0) && (first <= 0.0 ==> r.rise == 0.0)
  {
    assert samples[0..] == samples;
    NoError(samples, line);
    SumOfSquares(Residuals(samples, LinearRegression(samples)));
    FittedLineIsBest(samples, line);
    OnLine(samples, line);
  }

  lemma NoError(samples: seq<real>, line: Line)
    requires forall i :: 0 <= i < |samples| ==> samples[i] == line.intercept + line.slope * i as real
    ensures SquaredError(samples, line) == 0.0
  {
    var r := Residuals(samples, line);
    SumConstant(Product(r, r), 0.0);
  }

  lemma OnLine(samples: seq<real>, line: Line)
    requires samples != []
    requires forall i :: 0 <= i < |samples| ==> samples[i] == line.intercept + line.slope * i as real
    ensures Ends(line, |samples|).start == samples[0] && Ends(line, |samples|).end == Last(samples)
  {
    assert samples[|samples| - 1] == line.intercept + line.slope * (|samples| - 1) as real;
  }

  /** The first settle samples do not count, unless fewer than three would be left. */
  lemma SettlingIsLeftOut(before: seq<real>, samples: seq<real>)
    ensures |samples| >= 3 ==> Fitted(before + samples, |before|) == Fitted(samples, 0)
    ensures |samples| < 3 ==> Fitted(before + samples, |before|) == Fitted(before + samples, 0)
  {
    assert (before + samples)[|before|..] == samples && samples[0..] == samples;
    assert (before + samples)[0..] == before + samples;
  }

  /** Fewer than two samples rise by nothing, whatever the settling time. */
  lemma TooFewSamples(samples: seq<real>, settle: int)
    requires |samples| < 2
    ensures Fitted(samples, settle) == Rise(0.0, 0.0, 0.0)
  {
  }

  function Reversed(s: seq<real>): (r: seq<real>)
    ensures |r| == |s|
  {
    seq(|s|, i requires 0 <= i < |s| => s[|s| - 1 - i])
  }

  lemma {:induction false} SumReversed(s: seq<real>)
    ensures Sum(Reversed(s)) == Sum(s)
  {
    if s == [] {
    } else {
      var front := s[..|s| - 1];
      SumReversed(front);
      assert Reversed(s) == [Last(s)] + Reversed(front);
      SumCons(Last(s), Reversed(front));
    }
  }

  /** The line seen from the other end. */
  function Mirrored(line: Line, n: nat): Line {
    Line(-line.slope, line.intercept + line.slope * (n - 1) as real)
  }

  lemma MirroredError(s: seq<real>, line: Line)
    ensures SquaredError(Reversed(s), Mirrored(line, |s|)) == SquaredError(s, line)
  {
    var n, r, q := |s|, Residuals(s, line), Residuals(Reversed(s), Mirrored(line, |s|));
    forall i | 0 <= i < n ensures q[i] == r[n - 1 - i] {
      Backwards(line.intercept, line.slope, (n - 1) as real, i as real);
      assert Reversed(s)[i] == s[n - 1 - i];
    }
    SquaresReversed(r, q);
    SumReversed(Product(r, r));
  }

  lemma SquaresReversed(r: seq<real>, q: seq<real>)
    requires |q| == |r| && forall i :: 0 <= i < |q| ==> q[i] == r[|r| - 1 - i]
    ensures Product(q, q) == Reversed(Product(r, r))
  {
    forall i | 0 <= i < |q| ensures Product(q, q)[i] == Reversed(Product(r, r))[i] {
      AlikeSquares(q[i], r[|r| - 1 - i]);
    }
  }

  lemma AlikeSquares(x: real, y: real)
    requires x == y
    ensures x * x == y * y
  {
  }

  lemma Backwards(a: real, b: real, last: real, x: real)
    ensures (a + b * last) + -b * x == a + b * (last - x)
  {
  }

  lemma MirroredTwice(s: seq<real>, line: Line)
    ensures Reversed(Reversed(s)) == s && Mirrored(Mirrored(line, |s|), |s|) == line
  {
  }

  lemma MirrorFits(s: seq<real>, fit: Line, back: Line)
    requires |s| >= 2 && Fits(s, fit) && Fits(Reversed(s), back)
    ensures back == Mirrored(fit, |s|)
  {
    BestLine(Reversed(s), back, Mirrored(fit, |s|));
    BestLine(s, fit, Mirrored(back, |s|));
    MirroredError(s, fit);
    MirroredError(Reversed(s), back);
    MirroredTwice(s, fit);
  }

  lemma MirroredEnds(line: Line, n: nat)
    ensures var m := Mirrored(line, n);
            m.intercept + m.slope * (n - 1) as real == line.intercept
  {
  }

  /** Reversing all the samples swaps where the line starts and where it ends. */
  lemma ReversingSwapsEnds(samples: seq<real>)
    requires |samples| >= 2
    ensures Fitted(Reversed(samples), 0).start == Fitted(samples, 0).end
    ensures Fitted(Reversed(samples), 0).end == Fitted(samples, 0).start
  {
    var fit, back := LinearRegression(samples), LinearRegression(Reversed(samples));
    RegressionFits(samples);
    RegressionFits(Reversed(samples));
    MirrorFits(samples, fit, back);
    MirroredEnds(fit, |samples|);
  }

  function Scaled(s: seq<real>, c: real): (r: seq<real>)
    ensures |r| == |s|
  {
    seq(|s|, i requires 0 <= i < |s| => c * s[i])
  }

  function ScaledLine(line: Line, c: real): Line {
    Line(c * line.slope, c * line.intercept)
  }

  lemma ScaledCombines(s: seq<real>, line: Line, c: real)
    ensures Combines(Residuals(Scaled(s, c), ScaledLine(line, c)), c, Residuals(s, line),
                     0.0, Residuals(s, line))
  {
  }

  lemma ScaledSquares(r: seq<real>, q: seq<real>, c: real, error: real)
    requires Combines(q, c, r, 0.0, r) && error == Sum(Product(r, r))
    ensures Sum(Product(q, q)) == c * (c * error)
  {
    ProductCombines(q, q, c, r, 0.0, r);
    SumCombined(Product(q, q), c, Product(q, r), 0.0, Product(q, r));
    ProductCommutes(q, r);
    ProductCombines(r, q, c, r, 0.0, r);
    SumCombined(Product(r, q), c, Product(r, r), 0.0, Product(r, r));
  }

  lemma ScaledError(s: seq<real>, line: Line, c: real)
    ensures SquaredError(Scaled(s, c), ScaledLine(line, c)) == c * (c * SquaredError(s, line))
  {
    ScaledCombines(s, line, c);
    ScaledSquares(Residuals(s, line), Residuals(Scaled(s, c), ScaledLine(line, c)), c,
                  SquaredError(s, line));
  }

  lemma Unscaled(line: Line, c: real, unscaled: Line)
    requires c > 0.0 && unscaled == Line(line.slope / c, line.intercept / c)
    ensures ScaledLine(unscaled, c) == line
  {
  }

  lemma ScaledFits(s: seq<real>, c: real, fit: Line, best: Line)
    requires |s| >= 2 && c > 0.0 && Fits(s, fit) && Fits(Scaled(s, c), best)
    ensures best == ScaledLine(fit, c)
  {
    var unscaled := Line(best.slope / c, best.intercept / c);
    Unscaled(best, c, unscaled);
    ScaledError(s, fit, c);
    ScaledError(s, unscaled, c);
    BestLine(s, fit, unscaled);
    Squeezed(c, SquaredError(s, fit), SquaredError(s, unscaled));
    BestLine(Scaled(s, c), best, ScaledLine(fit, c));
  }

  lemma Squeezed(c: real, a: real, b: real)
    requires c > 0.0 && a <= b
    ensures c * (c * a) <= c * (c * b)
  {
  }

  lemma ScaledRegression(s: seq<real>, c: real)
    requires |s| >= 2 && c > 0.0
    ensures LinearRegression(Scaled(s, c)) == ScaledLine(LinearRegression(s), c)
  {
    RegressionFits(s);
    RegressionFits(Scaled(s, c));
    ScaledFits(s, c, LinearRegression(s), LinearRegression(Scaled(s, c)));
  }

  lemma SliceScaled(s: seq<real>, k: nat, c: real)
    requires k <= |s|
    ensures Scaled(s, c)[k..] == Scaled(s[k..], c)
  {
    forall i | 0 <= i < |s| - k ensures Scaled(s, c)[k + i] == Scaled(s[k..], c)[i] {
      Alike(c, s[k + i], s[k..][i]);
    }
  }

  lemma Alike(c: real, x: real, y: real)
    requires x == y
    ensures c * x == c * y
  {
  }

  lemma KeptScaled(samples: seq<real>, settle: int, c: real)
    ensures Kept(Scaled(samples, c), settle) == Scaled(Kept(samples, settle), c)
  {
    if 0 <= settle <= |samples| {
      SliceScaled(samples, settle, c);
    } else if -|samples| < settle < 0 {
      SliceScaled(samples, |samples| + settle, c);
    }
  }

  lemma ClimbScaled(line: Line, n: nat, c: real, r: Rise, t: Rise)
    requires c > 0.0 && r == Ends(line, n) && t == Ends(ScaledLine(line, c), n)
    ensures IsScaled(r, t, c)
  {
  }

  predicate IsScaled(r: Rise, t: Rise, c: real) {
    t.start == c * r.start && t.end == c * r.end && t.rise == r.rise
  }

  lemma Distributed(a: real, b: real, x: real, c: real, end: real)
    requires end == a + b * x
    ensures c * a + c * b * x == c * end
  {
  }

  lemma Cancelled(c: real, start: real, end: real, start1: real, end1: real, ratio: real)
    requires start1 == c * start && end1 == c * end && end == ratio * start
    ensures end1 == start1 * ratio
  {
  }

  /** Counting in another unit scales both ends and leaves the rise as it was. */
  lemma ScalingKeepsTheRise(samples: seq<real>, settle: int, c: real)
    requires c > 0.0
    ensures IsScaled(Fitted(samples, settle), Fitted(Scaled(samples, c), settle), c)
  {
    var s := Kept(samples, settle);
    KeptScaled(samples, settle, c);
    if |s| >= 2 {
      ScaledRegression(s, c);
      ClimbScaled(LinearRegression(s), |s|, c, Fitted(samples, settle), Fitted(Scaled(samples, c), settle));
    }
  }
}
