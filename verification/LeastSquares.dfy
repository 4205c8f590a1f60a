/**
 * Ordinary least squares over exact reals: the two-feature fit, the one-feature fit it must
 * dominate, and the rank guard.
 */
module LeastSquares {
  import opened Vectors
  import opened Wrappers

  /** Coefficients of the 24-hour lag and the 168-hour lag, and the intercept. */
  datatype Fit = Fit(lag24h: real, lag168h: real, intercept: real)

  datatype LineFit = LineFit(slope: real, intercept: real)

  datatype DesignError = SingularDesign | ZeroVariance

  const ORIGIN := Fit(0.0, 0.0, 0.0)

  function Predict(f: Fit, a: real, b: real): real {
    f.lag24h * a + f.lag168h * b + f.intercept
  }

  function Predictions(f: Fit, x1: Vec, x2: Vec): (r: Vec)
    requires |x1| == |x2|
    ensures |r| == |x1|
  {
    seq(|x1|, i requires 0 <= i < |x1| => Predict(f, x1[i], x2[i]))
  }

  function Residuals(f: Fit, x1: Vec, x2: Vec, y: Vec): (r: Vec)
    requires |x1| == |x2| == |y|
    ensures |r| == |x1|
  {
    seq(|y|, i requires 0 <= i < |y| => y[i] - Predict(f, x1[i], x2[i]))
  }

  function SquaredError(f: Fit, x1: Vec, x2: Vec, y: Vec): real
    requires |x1| == |x2| == |y|
  {
    var r := Residuals(f, x1, x2, y);
    Dot(r, r)
  }

  /** `f` beats every other choice of three parameters, strictly. */
  ghost predicate UniqueMinimiser(f: Fit, x1: Vec, x2: Vec, y: Vec)
    requires |x1| == |x2| == |y|
  {
    forall g: Fit | g != f :: SquaredError(f, x1, x2, y) < SquaredError(g, x1, x2, y)
  }

  /** One non-trivial affine relation p*x1 + s*x2 + t == 0 holds on every row. */
  ghost predicate RelatedBy(g: Fit, x1: Vec, x2: Vec)
    requires |x1| == |x2|
  {
    g != ORIGIN && Zero(Predictions(g, x1, x2))
  }

  ghost predicate Collinear(x1: Vec, x2: Vec)
    requires |x1| == |x2|
  {
    exists g :: RelatedBy(g, x1, x2)
  }

  /** The residuals are orthogonal to the constant and to both features. */
  ghost predicate NormalEquations(f: Fit, x1: Vec, x2: Vec, y: Vec)
    requires |x1| == |x2| == |y|
  {
    var r := Residuals(f, x1, x2, y);
    Dot(r, Ones(|y|)) == 0.0 && Dot(r, x1) == 0.0 && Dot(r, x2) == 0.0
  }

  // ---------- the formulas ----------

  /** Centred second moments of the two features and their moments with the target. */
  datatype Moments = Moments(s11: real, s22: real, s12: real, t1: real, t2: real)

  function Det(s11: real, s22: real, s12: real): real {
    s11 * s22 - s12 * s12
  }

  function Determinant(m: Moments): real {
    Det(m.s11, m.s22, m.s12)
  }

  function MomentsOf(c1: Vec, c2: Vec, cy: Vec): Moments
    requires |c1| == |c2| == |cy|
  {
    Moments(Dot(c1, c1), Dot(c2, c2), Dot(c1, c2), Dot(c1, cy), Dot(c2, cy))
  }

  function CentredMoments(x1: Vec, x2: Vec, y: Vec): Moments
    requires |x1| == |x2| == |y| && y != []
  {
    MomentsOf(Centered(x1), Centered(x2), Centered(y))
  }

  /** Cramer's rule: the coefficients solve the centred normal equations. */
  function Solve(m: Moments, mean1: real, mean2: real, meanY: real): (f: Fit)
    requires Determinant(m) != 0.0
    ensures Mix(f.lag24h, m.s11, f.lag168h, m.s12) == m.t1
    ensures Mix(f.lag24h, m.s12, f.lag168h, m.s22) == m.t2
    ensures Predict(f, mean1, mean2) == meanY
  {
    var d := Determinant(m);
    var a := (m.t1 * m.s22 - m.t2 * m.s12) / d;
    var b := (m.t2 * m.s11 - m.t1 * m.s12) / d;
    Cramer(a, b, d, m.s11, m.s12, m.s22, m.t1, m.t2);
    Fit(a, b, meanY - a * mean1 - b * mean2)
  }

  /** What the two-feature computation returns. */
  function TwoFeatureOls(x1: Vec, x2: Vec, y: Vec): Result<Fit, DesignError>
    requires |x1| == |x2| == |y| && y != []
  {
    var m := CentredMoments(x1, x2, y);
    if Determinant(m) <= 0.0 then Err(SingularDesign)
    else Ok(Solve(m, Mean(x1), Mean(x2), Mean(y)))
  }

  function SolveLine(s11: real, t1: real, mean: real, meanY: real): (l: LineFit)
    requires s11 != 0.0
    ensures l.slope * s11 == t1
    ensures forall b :: Predict(AsFit(l), mean, b) == meanY
  {
    var slope := t1 / s11;
    LineFit(slope, meanY - slope * mean)
  }

  /** What the one-feature computation returns. */
  function OneFeatureOls(x: Vec, y: Vec): Result<LineFit, DesignError>
    requires |x| == |y| && y != []
  {
    var c := Centered(x);
    if Dot(c, c) == 0.0 then Err(ZeroVariance)
    else Ok(SolveLine(Dot(c, c), Dot(c, Centered(y)), Mean(x), Mean(y)))
  }

  /** A line in the 24-hour lag is the two-feature model that ignores the 168-hour lag. */
  function AsFit(line: LineFit): Fit {
    Fit(line.slope, 0.0, line.intercept)
  }

  // ---------- normal equations ----------

  lemma PredictionsLinear(f: Fit, x1: Vec, x2: Vec)
    requires |x1| == |x2|
    ensures Predictions(f, x1, x2)
         == Combine(1.0, Combine(f.lag24h, x1, f.lag168h, x2), f.intercept, Ones(|x1|))
  {
    forall i | 0 <= i < |x1|
      ensures Predict(f, x1[i], x2[i])
           == Mix(1.0, Mix(f.lag24h, x1[i], f.lag168h, x2[i]), f.intercept, 1.0)
    {
    }
  }

  function Difference(f: Fit, g: Fit): Fit {
    Fit(f.lag24h - g.lag24h, f.lag168h - g.lag168h, f.intercept - g.intercept)
  }

  lemma PredictDifference(f: Fit, g: Fit, a: real, b: real)
    ensures Predict(f, a, b) - Predict(g, a, b) == Predict(Difference(f, g), a, b)
  {
  }

  lemma ResidualsShift(f: Fit, g: Fit, x1: Vec, x2: Vec, y: Vec)
    requires |x1| == |x2| == |y|
    ensures Residuals(g, x1, x2, y)
         == Combine(1.0, Residuals(f, x1, x2, y), 1.0, Predictions(Difference(f, g), x1, x2))
  {
    forall i | 0 <= i < |y|
      ensures Residuals(g, x1, x2, y)[i]
           == Mix(1.0, Residuals(f, x1, x2, y)[i], 1.0, Predictions(Difference(f, g), x1, x2)[i])
    {
      PredictDifference(f, g, x1[i], x2[i]);
    }
  }

  lemma DotWithPredictions(r: Vec, g: Fit, x1: Vec, x2: Vec)
    requires |r| == |x1| == |x2|
    ensures Dot(r, Predictions(g, x1, x2))
         == Mix(1.0, Mix(g.lag24h, Dot(r, x1), g.lag168h, Dot(r, x2)), g.intercept, Dot(r, Ones(|x1|)))
  {
    PredictionsLinear(g, x1, x2);
    DotLinearRight(r, 1.0, Combine(g.lag24h, x1, g.lag168h, x2), g.intercept, Ones(|x1|));
    DotLinearRight(r, g.lag24h, x1, g.lag168h, x2);
  }

  lemma SquareOfSum(r: Vec, q: Vec)
    requires |r| == |q|
    ensures var c := Combine(1.0, r, 1.0, q);
            Dot(c, c) == Dot(r, r) + 2.0 * Dot(r, q) + Dot(q, q)
  {
    var c := Combine(1.0, r, 1.0, q);
    DotLinear(1.0, r, 1.0, q, c);
    DotLinearRight(r, 1.0, r, 1.0, q);
    DotLinearRight(q, 1.0, r, 1.0, q);
    DotSymmetric(r, q);
  }

  /** Pythagoras: any other parameters cost exactly the squared length of the prediction change. */
  lemma ErrorDecomposes(f: Fit, g: Fit, x1: Vec, x2: Vec, y: Vec)
    requires |x1| == |x2| == |y| && NormalEquations(f, x1, x2, y)
    ensures var q := Predictions(Difference(f, g), x1, x2);
            SquaredError(g, x1, x2, y) == SquaredError(f, x1, x2, y) + Dot(q, q)
  {
    var r := Residuals(f, x1, x2, y);
    var q := Predictions(Difference(f, g), x1, x2);
    ResidualsShift(f, g, x1, x2, y);
    SquareOfSum(r, q);
    DotWithPredictions(r, Difference(f, g), x1, x2);
  }

  /** Solving the normal equations on a full-rank design gives the unique minimiser. */
  lemma NormalEquationsMinimise(f: Fit, x1: Vec, x2: Vec, y: Vec)
    requires |x1| == |x2| == |y| && NormalEquations(f, x1, x2, y) && !Collinear(x1, x2)
    ensures UniqueMinimiser(f, x1, x2, y)
  {
    forall g: Fit | g != f
      ensures SquaredError(f, x1, x2, y) < SquaredError(g, x1, x2, y)
    {
      var q := Predictions(Difference(f, g), x1, x2);
      ErrorDecomposes(f, g, x1, x2, y);
      DotSelf(q);
      assert Difference(f, g) != ORIGIN;
      assert !RelatedBy(Difference(f, g), x1, x2);
    }
  }

  lemma Cramer(a: real, b: real, d: real, s11: real, s12: real, s22: real, t1: real, t2: real)
    requires d == Det(s11, s22, s12) && d != 0.0
    requires a == (t1 * s22 - t2 * s12) / d && b == (t2 * s11 - t1 * s12) / d
    ensures a * s11 + b * s12 == t1 && a * s12 + b * s22 == t2
  {
    var p, q := t1 * s22 - t2 * s12, t2 * s11 - t1 * s12;
    assert a * d == p && b * d == q;
    CramerRow(a, b, d, p, q, s11, s12);
    assert p * s11 + q * s12 == t1 * d;
    Cancel(a * s11 + b * s12, t1, d);
    CramerRow(a, b, d, p, q, s12, s22);
    assert p * s12 + q * s22 == t2 * d;
    Cancel(a * s12 + b * s22, t2, d);
  }

  lemma CramerRow(a: real, b: real, d: real, p: real, q: real, x: real, y: real)
    requires a * d == p && b * d == q
    ensures (a * x + b * y) * d == p * x + q * y
  {
    assert (a * x + b * y) * d == (a * d) * x + (b * d) * y;
  }

  lemma Cancel(x: real, y: real, d: real)
    requires d != 0.0 && x * d == y * d
    ensures x == y
  {
    assert x == x * d / d == y * d / d == y;
  }

  lemma CentredResidual(f: Fit, x1: real, x2: real, y: real, m1: real, m2: real, my: real)
    requires Predict(f, m1, m2) == my
    ensures y - Predict(f, x1, x2) == Mix(1.0, Mix(1.0, y - my, -f.lag24h, x1 - m1), -f.lag168h, x2 - m2)
  {
  }

  /** A fit through the means leaves residuals that are combinations of the deviations. */
  lemma ResidualsCombine(f: Fit, x1: Vec, x2: Vec, y: Vec)
    requires |x1| == |x2| == |y| && y != []
    requires Predict(f, Mean(x1), Mean(x2)) == Mean(y)
    ensures Residuals(f, x1, x2, y)
         == Combine(1.0, Combine(1.0, Centered(y), -f.lag24h, Centered(x1)), -f.lag168h, Centered(x2))
  {
    hide Mix;
    forall i | 0 <= i < |y|
      ensures y[i] - Predict(f, x1[i], x2[i])
           == Mix(1.0, Mix(1.0, y[i] - Mean(y), -f.lag24h, x1[i] - Mean(x1)), -f.lag168h, x2[i] - Mean(x2))
    {
      CentredResidual(f, x1[i], x2[i], y[i], Mean(x1), Mean(x2), Mean(y));
    }
  }

  lemma ResidualDot(f: Fit, x1: Vec, x2: Vec, y: Vec, w: Vec)
    requires |x1| == |x2| == |y| == |w| && y != []
    requires Predict(f, Mean(x1), Mean(x2)) == Mean(y)
    ensures Dot(Residuals(f, x1, x2, y), w)
         == Mix(1.0, Mix(1.0, Dot(Centered(y), w), -f.lag24h, Dot(Centered(x1), w)), -f.lag168h, Dot(Centered(x2), w))
  {
    hide Mix, Mean, Predict, Dot;
    ResidualsCombine(f, x1, x2, y);
    DotLinear(1.0, Combine(1.0, Centered(y), -f.lag24h, Centered(x1)), -f.lag168h, Centered(x2), w);
    DotLinear(1.0, Centered(y), -f.lag24h, Centered(x1), w);
  }

  lemma Annihilated(t: real, a: real, s: real, b: real, u: real)
    requires Mix(a, s, b, u) == t
    ensures Mix(1.0, Mix(1.0, t, -a, s), -b, u) == 0.0
  {
  }

  lemma ResidualsSumToZero(f: Fit, x1: Vec, x2: Vec, y: Vec)
    requires |x1| == |x2| == |y| && y != []
    requires Predict(f, Mean(x1), Mean(x2)) == Mean(y)
    ensures Dot(Residuals(f, x1, x2, y), Ones(|y|)) == 0.0
  {
    ResidualDot(f, x1, x2, y, Ones(|y|));
    CenteredSumsToZero(x1);
    CenteredSumsToZero(x2);
    CenteredSumsToZero(y);
    Annihilated(0.0, f.lag24h, 0.0, f.lag168h, 0.0);
  }

  /** The residuals of the solution have no component along a direction whose equation it solves. */
  lemma ResidualsAvoid(f: Fit, x1: Vec, x2: Vec, y: Vec, w: Vec)
    requires |x1| == |x2| == |y| == |w| && y != []
    requires Predict(f, Mean(x1), Mean(x2)) == Mean(y)
    requires Mix(f.lag24h, Dot(w, Centered(x1)), f.lag168h, Dot(w, Centered(x2))) == Dot(w, Centered(y))
    ensures Dot(Residuals(f, x1, x2, y), w) == 0.0
  {
    hide Mix, Dot, Mean, Predict;
    ResidualDot(f, x1, x2, y, w);
    DotSymmetric(w, Centered(x1));
    DotSymmetric(w, Centered(x2));
    DotSymmetric(w, Centered(y));
    Annihilated(Dot(w, Centered(y)), f.lag24h, Dot(w, Centered(x1)), f.lag168h, Dot(w, Centered(x2)));
  }

  /** The computed parameters satisfy the three normal equations. */
  lemma SolutionIsOrthogonal(x1: Vec, x2: Vec, y: Vec)
    requires |x1| == |x2| == |y| && y != []
    requires Determinant(CentredMoments(x1, x2, y)) != 0.0
    ensures NormalEquations(Solve(CentredMoments(x1, x2, y), Mean(x1), Mean(x2), Mean(y)), x1, x2, y)
  {
    hide Mix, Dot, Mean, Predict, Determinant, Residuals, Centered, Solve;
    var f := Solve(CentredMoments(x1, x2, y), Mean(x1), Mean(x2), Mean(y));
    var r := Residuals(f, x1, x2, y);
    ResidualsSumToZero(f, x1, x2, y);
    ResidualsAvoid(f, x1, x2, y, Centered(x1));
    DotSymmetric(Centered(x1), Centered(x2));
    ResidualsAvoid(f, x1, x2, y, Centered(x2));
    DotCentered(x1, r);
    DotCentered(x2, r);
  }

  // ---------- the rank guard ----------

  /** The combination of the two columns that is orthogonal to the second. */
  function Rejection(c1: Vec, c2: Vec): (z: Vec)
    requires |c1| == |c2|
    ensures |z| == |c1|
  {
    Combine(Dot(c2, c2), c1, -Dot(c1, c2), c2)
  }

  lemma CombinationLength(a: real, c1: Vec, b: real, c2: Vec)
    requires |c1| == |c2|
    ensures var z := Combine(a, c1, b, c2);
            Dot(z, z) == Mix(a, Mix(a, Dot(c1, c1), b, Dot(c1, c2)), b, Mix(a, Dot(c1, c2), b, Dot(c2, c2)))
  {
    var z := Combine(a, c1, b, c2);
    DotLinear(a, c1, b, c2, z);
    DotLinearRight(c1, a, c1, b, c2);
    DotLinearRight(c2, a, c1, b, c2);
    DotSymmetric(c1, c2);
  }

  lemma RejectionLength(c1: Vec, c2: Vec, s11: real, s22: real, s12: real)
    requires |c1| == |c2|
    requires s11 == Dot(c1, c1) && s22 == Dot(c2, c2) && s12 == Dot(c1, c2)
    ensures Dot(Rejection(c1, c2), Rejection(c1, c2)) == s22 * Det(s11, s22, s12)
  {
    calc {
      Dot(Rejection(c1, c2), Rejection(c1, c2));
      { CombinationLength(s22, c1, -s12, c2); }
      Mix(s22, Mix(s22, s11, -s12, s12), -s12, Mix(s22, s12, -s12, s22));
      { RejectionAlgebra(s11, s22, s12); }
      s22 * Det(s11, s22, s12);
    }
  }

  lemma RejectionAlgebra(s11: real, s22: real, s12: real)
    ensures Mix(s22, Mix(s22, s11, -s12, s12), -s12, Mix(s22, s12, -s12, s22)) == s22 * Det(s11, s22, s12)
  {
    assert Mix(s22, s12, -s12, s22) == 0.0;
    assert Mix(s22, s11, -s12, s12) == Det(s11, s22, s12);
  }

  /** Cauchy-Schwarz, with its equality case. */
  lemma CauchySchwarz(c1: Vec, c2: Vec)
    requires |c1| == |c2|
    ensures var s22, d := Dot(c2, c2), Det(Dot(c1, c1), Dot(c2, c2), Dot(c1, c2));
            && d >= 0.0
            && (d <= 0.0 ==> Zero(c2) || (s22 > 0.0 && Zero(Rejection(c1, c2))))
  {
    var s22, d := Dot(c2, c2), Det(Dot(c1, c1), Dot(c2, c2), Dot(c1, c2));
    DotSelf(c2);
    if s22 <= 0.0 {
      DotZero(c2, c1);
      DotZero(c2, c2);
      DotSymmetric(c1, c2);
      assert d == 0.0;
    } else {
      RejectionLength(c1, c2, Dot(c1, c1), s22, Dot(c1, c2));
      DotSelf(Rejection(c1, c2));
      ProductSign(s22, d);
    }
  }

  lemma ProductSign(s: real, d: real)
    requires s > 0.0
    ensures s * d >= 0.0 ==> d >= 0.0
    ensures d <= 0.0 ==> s * d <= 0.0
  {
    if d < 0.0 {
      assert PositiveProduct(s, -d) == -(s * d);
    }
  }

  /** The determinant the two-feature computation accumulates. */
  function DesignDeterminant(x1: Vec, x2: Vec): real
    requires |x1| == |x2| && x1 != []
  {
    var c1, c2 := Centered(x1), Centered(x2);
    Det(Dot(c1, c1), Dot(c2, c2), Dot(c1, c2))
  }

  /** Columns whose deviations satisfy p*c1 + s*c2 == 0 satisfy an affine relation. */
  lemma DeviationsRelate(p: real, s: real, x1: Vec, x2: Vec)
    requires |x1| == |x2| && x1 != [] && (p != 0.0 || s != 0.0)
    requires Zero(Combine(p, Centered(x1), s, Centered(x2)))
    ensures Collinear(x1, x2)
  {
    var m1, m2 := Mean(x1), Mean(x2);
    var g := Fit(p, s, -Mix(p, m1, s, m2));
    forall i | 0 <= i < |x1|
      ensures Predictions(g, x1, x2)[i] == 0.0
    {
      assert Combine(p, Centered(x1), s, Centered(x2))[i] == 0.0;
      CentredRelation(g, x1[i], x2[i], m1, m2);
    }
    assert RelatedBy(g, x1, x2);
  }

  lemma SingularGivesRelation(x1: Vec, x2: Vec)
    requires |x1| == |x2| && x1 != [] && DesignDeterminant(x1, x2) <= 0.0
    ensures Collinear(x1, x2)
  {
    var c1, c2 := Centered(x1), Centered(x2);
    CauchySchwarz(c1, c2);
    if Zero(c2) {
      DeviationsRelate(0.0, 1.0, x1, x2);
    } else {
      DeviationsRelate(Dot(c2, c2), -Dot(c1, c2), x1, x2);
    }
  }

  lemma CentredRelation(g: Fit, a: real, b: real, m1: real, m2: real)
    ensures Predict(g, a, b) == Mix(g.lag24h, a - m1, g.lag168h, b - m2) + Predict(g, m1, m2)
  {
  }

  /** An affine relation between the columns is a linear one between their deviations. */
  lemma RelationCentres(g: Fit, x1: Vec, x2: Vec)
    requires |x1| == |x2| && x1 != [] && RelatedBy(g, x1, x2)
    ensures Zero(Combine(g.lag24h, Centered(x1), g.lag168h, Centered(x2)))
    ensures g.lag24h != 0.0 || g.lag168h != 0.0
  {
    var n, c1, c2 := |x1|, Centered(x1), Centered(x2);
    var w := Combine(g.lag24h, c1, g.lag168h, c2);
    var k := Predict(g, Mean(x1), Mean(x2));
    forall i | 0 <= i < n
      ensures w[i] == Mix(-k, 1.0, 0.0, 1.0)
    {
      CentredRelation(g, x1[i], x2[i], Mean(x1), Mean(x2));
      assert Predictions(g, x1, x2)[i] == 0.0;
    }
    assert w == Combine(-k, Ones(n), 0.0, Ones(n));
    DotLinear(-k, Ones(n), 0.0, Ones(n), Ones(n));
    DotOnes(Ones(n));
    SumOnes(n);
    DotLinear(g.lag24h, c1, g.lag168h, c2, Ones(n));
    CenteredSumsToZero(x1);
    CenteredSumsToZero(x2);
    Cancel(-k, 0.0, n as real);
    assert Predictions(g, x1, x2)[0] == 0.0;
  }

  lemma RelationIsSingular(x1: Vec, x2: Vec)
    requires |x1| == |x2| && x1 != [] && Collinear(x1, x2)
    ensures DesignDeterminant(x1, x2) == 0.0
  {
    var g :| RelatedBy(g, x1, x2);
    var c1, c2 := Centered(x1), Centered(x2);
    RelationCentres(g, x1, x2);
    var w := Combine(g.lag24h, c1, g.lag168h, c2);
    DotZero(w, c1);
    DotZero(w, c2);
    DotLinear(g.lag24h, c1, g.lag168h, c2, c1);
    DotLinear(g.lag24h, c1, g.lag168h, c2, c2);
    DotSymmetric(c1, c2);
    NullVector(g.lag24h, g.lag168h, Dot(c1, c1), Dot(c1, c2), Dot(c2, c2));
  }

  lemma NullVector(p: real, s: real, s11: real, s12: real, s22: real)
    requires p != 0.0 || s != 0.0
    requires Mix(p, s11, s, s12) == 0.0 && Mix(p, s12, s, s22) == 0.0
    ensures Det(s11, s22, s12) == 0.0
  {
    var d := Det(s11, s22, s12);
    assert d * p == (p * s11) * s22 - (p * s12) * s12 == (-(s * s12)) * s22 - (-(s * s22)) * s12 == 0.0;
    assert d * s == (s * s22) * s11 - (s * s12) * s12 == (-(p * s12)) * s11 - (-(p * s11)) * s12 == 0.0;
    if p != 0.0 {
      Cancel(d, 0.0, p);
    } else {
      Cancel(d, 0.0, s);
    }
  }

  /** Two points always lie on a line, so a design of fewer than three rows has no full rank. */
  lemma FewRowsCollinear(x1: Vec, x2: Vec)
    requires |x1| == |x2| <= 2
    ensures Collinear(x1, x2)
  {
    var g := if x1 == [] then Fit(1.0, 0.0, 0.0)
             else if |x1| == 1 || x1[0] == x1[1] then Fit(1.0, 0.0, -x1[0])
             else Fit(x2[1] - x2[0], x1[0] - x1[1], x1[1] * x2[0] - x1[0] * x2[1]);
    forall i | 0 <= i < |x1|
      ensures Predictions(g, x1, x2)[i] == 0.0
    {
    }
    assert RelatedBy(g, x1, x2);
  }

  // ---------- main results on the two-feature fit ----------

  /** The rank guard is exact: the determinant is never negative, and is zero just for collinear columns. */
  lemma RankGuardExact(x1: Vec, x2: Vec)
    requires |x1| == |x2| && x1 != []
    ensures DesignDeterminant(x1, x2) >= 0.0
    ensures DesignDeterminant(x1, x2) <= 0.0 <==> Collinear(x1, x2)
    ensures |x1| < 3 ==> DesignDeterminant(x1, x2) == 0.0
  {
    CauchySchwarz(Centered(x1), Centered(x2));
    if DesignDeterminant(x1, x2) <= 0.0 {
      SingularGivesRelation(x1, x2);
    }
    if |x1| < 3 {
      FewRowsCollinear(x1, x2);
    }
    if Collinear(x1, x2) {
      RelationIsSingular(x1, x2);
    }
  }

  /** The fit is accepted just on full-rank designs, and is then the unique least-squares minimiser. */
  lemma TwoFeatureOptimal(x1: Vec, x2: Vec, y: Vec)
    requires |x1| == |x2| == |y| && y != []
    ensures TwoFeatureOls(x1, x2, y).Ok? <==> !Collinear(x1, x2)
    ensures TwoFeatureOls(x1, x2, y).Err? ==> TwoFeatureOls(x1, x2, y) == Err(SingularDesign)
    ensures TwoFeatureOls(x1, x2, y).Ok? ==>
              && NormalEquations(TwoFeatureOls(x1, x2, y).value, x1, x2, y)
              && UniqueMinimiser(TwoFeatureOls(x1, x2, y).value, x1, x2, y)
  {
    RankGuardExact(x1, x2);
    if TwoFeatureOls(x1, x2, y).Ok? {
      SolutionIsOrthogonal(x1, x2, y);
      NormalEquationsMinimise(TwoFeatureOls(x1, x2, y).value, x1, x2, y);
    }
  }

  /** Targets that lie on a plane over a full-rank design give that plane back. */
  lemma PlaneRecovered(g: Fit, x1: Vec, x2: Vec, y: Vec)
    requires |x1| == |x2| == |y| && y != []
    requires y == Predictions(g, x1, x2)
    ensures TwoFeatureOls(x1, x2, y) == if Collinear(x1, x2) then Err(SingularDesign) else Ok(g)
  {
    TwoFeatureOptimal(x1, x2, y);
    if TwoFeatureOls(x1, x2, y).Ok? {
      var f := TwoFeatureOls(x1, x2, y).value;
      assert Zero(Residuals(g, x1, x2, y));
      DotZero(Residuals(g, x1, x2, y), Residuals(g, x1, x2, y));
      DotSelf(Residuals(f, x1, x2, y));
      assert f != g ==> SquaredError(f, x1, x2, y) < SquaredError(g, x1, x2, y);
    }
  }

  // ---------- the one-feature fit ----------

  function LineResiduals(line: LineFit, x: Vec, y: Vec): (r: Vec)
    requires |x| == |y|
    ensures |r| == |y|
  {
    seq(|y|, i requires 0 <= i < |y| => y[i] - (line.slope * x[i] + line.intercept))
  }

  /** Squared error of a line in the 24-hour lag. */
  function LineError(line: LineFit, x: Vec, y: Vec): real
    requires |x| == |y|
  {
    Dot(LineResiduals(line, x, y), LineResiduals(line, x, y))
  }

  /** A line is the two-feature model that ignores the second feature. */
  lemma LineErrorIsSquaredError(line: LineFit, x1: Vec, x2: Vec, y: Vec)
    requires |x1| == |x2| == |y|
    ensures LineError(line, x1, y) == SquaredError(AsFit(line), x1, x2, y)
  {
    forall i | 0 <= i < |y|
      ensures LineResiduals(line, x1, y)[i] == Residuals(AsFit(line), x1, x2, y)[i]
    {
    }
    assert LineResiduals(line, x1, y) == Residuals(AsFit(line), x1, x2, y);
  }

  lemma LineMix(slope: real, s: real)
    ensures Mix(slope, s, 0.0, s) == slope * s
  {
  }

  /** The line's residuals are orthogonal to the constant and to the lag. */
  lemma LineIsOrthogonal(l: LineFit, x: Vec, y: Vec)
    requires |x| == |y| && y != [] && OneFeatureOls(x, y) == Ok(l)
    ensures NormalEquations(AsFit(l), x, x, y)
  {
    hide Dot, Mean, Residuals, Centered;
    var f, c := AsFit(l), Centered(x);
    LineMix(l.slope, Dot(c, c));
    hide Mix, Predict;
    ResidualsSumToZero(f, x, x, y);
    ResidualsAvoid(f, x, x, y, c);
    DotCentered(x, Residuals(f, x, x, y));
  }

  /** A lag that varies satisfies no relation with itself but the trivial ones. */
  lemma SelfRelation(d: Fit, x: Vec)
    requires x != [] && d.lag168h == 0.0 && RelatedBy(d, x, x)
    ensures Dot(Centered(x), Centered(x)) == 0.0
  {
    var c := Centered(x);
    RelationCentres(d, x, x);
    var w := Combine(d.lag24h, c, d.lag168h, c);
    DotZero(w, c);
    DotLinear(d.lag24h, c, d.lag168h, c, c);
    Cancel(Dot(c, c), 0.0, d.lag24h);
  }

  /** The column takes two different values. */
  ghost predicate Varies(x: Vec) {
    exists i, j :: 0 <= i < j < |x| && x[i] != x[j]
  }

  /** The deviation products vanish just on the constant columns. */
  lemma VarianceExact(x: Vec)
    requires x != []
    ensures Dot(Centered(x), Centered(x)) == 0.0 <==> !Varies(x)
  {
    var c := Centered(x);
    if Dot(c, c) == 0.0 {
      DotSelf(c);
      assert forall i :: 0 <= i < |x| ==> c[i] == x[i] - Mean(x);
    }
    if !Varies(x) {
      var constant := Fit(1.0, 0.0, -x[0]);
      forall i | 0 <= i < |x| ensures Predictions(constant, x, x)[i] == 0.0 {
        assert i > 0 ==> x[0] == x[i];
      }
      assert RelatedBy(constant, x, x);
      SelfRelation(constant, x);
    }
  }

  /** The one-feature fit accepts exactly the lags that vary; two rows are enough. */
  lemma OneFeatureAccepts(x: Vec, y: Vec)
    requires |x| == |y| && y != []
    ensures if Varies(x) then OneFeatureOls(x, y).Ok? else OneFeatureOls(x, y) == Err(ZeroVariance)
  {
    VarianceExact(x);
  }

  /** The one-feature fit is the unique least-squares line whenever the lag varies. */
  lemma OneFeatureOptimal(l: LineFit, x: Vec, y: Vec, other: LineFit)
    requires |x| == |y| && y != [] && OneFeatureOls(x, y) == Ok(l)
    ensures other != l ==> LineError(l, x, y) < LineError(other, x, y)
  {
    var d := Difference(AsFit(l), AsFit(other));
    LineIsOrthogonal(l, x, y);
    LineErrorIsSquaredError(l, x, x, y);
    LineErrorIsSquaredError(other, x, x, y);
    ErrorDecomposes(AsFit(l), AsFit(other), x, x, y);
    DotSelf(Predictions(d, x, x));
    if other != l && Zero(Predictions(d, x, x)) {
      assert RelatedBy(d, x, x);
      SelfRelation(d, x);
      assert false;
    }
  }

  lemma PositiveVariance(x1: Vec, x2: Vec)
    requires |x1| == |x2| && x1 != [] && DesignDeterminant(x1, x2) > 0.0
    ensures Dot(Centered(x1), Centered(x1)) > 0.0
  {
    var c1, c2 := Centered(x1), Centered(x2);
    DotSelf(c1);
    if Dot(c1, c1) <= 0.0 {
      DotZero(c1, c2);
      DotZero(c1, c1);
    }
  }

  function GapNumerator(m: Moments): real {
    m.t2 * m.s11 - m.t1 * m.s12
  }

  /** With `p` the change of the first coefficient: the numerator is the second coefficient times the determinant. */
  lemma GapParts(a: real, b: real, slope: real, s11: real, s22: real, s12: real, t1: real, t2: real)
    requires Mix(a, s11, b, s12) == t1 && Mix(a, s12, b, s22) == t2 && slope * s11 == t1
    ensures Mix(a - slope, s11, b, s12) == 0.0
    ensures t2 * s11 - t1 * s12 == b * Det(s11, s22, s12)
    ensures Mix(a - slope, s12, b, s22) * s11 == b * Det(s11, s22, s12)
  {
    var p := a - slope;
    assert p * s11 == -(b * s12);
    assert t2 * s11 == a * s12 * s11 + b * s22 * s11;
    assert t1 * s12 == a * s11 * s12 + b * s12 * s12;
    assert Mix(p, s12, b, s22) * s11 == (p * s11) * s12 + b * s22 * s11;
  }

  lemma GapSquare(n: real, b: real, v: real, s11: real, d: real)
    requires n == b * d && v * s11 == b * d
    ensures (b * v) * (s11 * d) == n * n
  {
    assert (b * v) * (s11 * d) == (b * d) * (v * s11);
  }

  lemma ZeroFirst(p: real, b: real, v: real)
    ensures Mix(p, 0.0, b, v) == b * v
  {
  }

  lemma GapAlgebra(m: Moments, a: real, b: real, slope: real)
    requires m.s11 != 0.0 && Determinant(m) != 0.0
    requires Mix(a, m.s11, b, m.s12) == m.t1 && Mix(a, m.s12, b, m.s22) == m.t2 && slope * m.s11 == m.t1
    ensures m.s11 * Determinant(m) != 0.0
    ensures Mix(a - slope, Mix(a - slope, m.s11, b, m.s12), b, Mix(a - slope, m.s12, b, m.s22))
         == GapNumerator(m) * GapNumerator(m) / (m.s11 * Determinant(m))
  {
    hide Mix, Det;
    var v := Mix(a - slope, m.s12, b, m.s22);
    GapParts(a, b, slope, m.s11, m.s22, m.s12, m.t1, m.t2);
    GapSquare(GapNumerator(m), b, v, m.s11, Determinant(m));
    ZeroFirst(a - slope, b, v);
    DivideOut(b * v, GapNumerator(m) * GapNumerator(m), m.s11, Determinant(m));
  }

  lemma DivideOut(q: real, n: real, s: real, d: real)
    requires s != 0.0 && d != 0.0 && q * (s * d) == n
    ensures s * d != 0.0 && q == n / (s * d)
  {
    if s * d == 0.0 {
      Cancel(s, 0.0, d);
    }
    var k := s * d;
    assert q * k / k == q;
  }

  lemma GapLength(f: Fit, l: LineFit, m: Moments, c1: Vec, c2: Vec)
    requires |c1| == |c2| && m.s11 == Dot(c1, c1) && m.s12 == Dot(c1, c2) && m.s22 == Dot(c2, c2)
    requires m.s11 != 0.0 && Determinant(m) != 0.0
    requires Mix(f.lag24h, m.s11, f.lag168h, m.s12) == m.t1 && Mix(f.lag24h, m.s12, f.lag168h, m.s22) == m.t2
    requires l.slope * m.s11 == m.t1
    ensures m.s11 * Determinant(m) != 0.0
    ensures var q := Combine(f.lag24h - l.slope, c1, f.lag168h, c2);
            Dot(q, q) == GapNumerator(m) * GapNumerator(m) / (m.s11 * Determinant(m))
  {
    CombinationLength(f.lag24h - l.slope, c1, f.lag168h, c2);
    GapAlgebra(m, f.lag24h, f.lag168h, l.slope);
  }

  /** Where the two-feature fit is accepted, the one-feature fit is too. */
  lemma NestedAcceptance(x1: Vec, x2: Vec, y: Vec)
    requires |x1| == |x2| == |y| && y != [] && TwoFeatureOls(x1, x2, y).Ok?
    ensures OneFeatureOls(x1, y).Ok?
    ensures CentredMoments(x1, x2, y).s11 * Determinant(CentredMoments(x1, x2, y)) > 0.0
  {
    PositiveVariance(x1, x2);
    var m := CentredMoments(x1, x2, y);
    assert PositiveProduct(m.s11, Determinant(m)) > 0.0;
  }

  /** Dropping the second feature costs exactly this much squared error; it is never a gain. */
  lemma NestingGap(x1: Vec, x2: Vec, y: Vec, f: Fit, l: LineFit, m: Moments)
    requires |x1| == |x2| == |y| && y != [] && m == CentredMoments(x1, x2, y)
    requires TwoFeatureOls(x1, x2, y) == Ok(f) && OneFeatureOls(x1, y) == Ok(l)
    ensures m.s11 * Determinant(m) > 0.0
    ensures LineError(l, x1, y) - SquaredError(f, x1, x2, y)
         == GapNumerator(m) * GapNumerator(m) / (m.s11 * Determinant(m))
    ensures LineError(l, x1, y) >= SquaredError(f, x1, x2, y)
  {
    hide Dot, Mix, Mean, Centered, Residuals, LineResiduals, Predict, Det, GapNumerator;
    NestedAcceptance(x1, x2, y);
    LineExcess(x1, x2, y, f, l);
    GapLength(f, l, m, Centered(x1), Centered(x2));
    DotSelf(Combine(f.lag24h - l.slope, Centered(x1), f.lag168h, Centered(x2)));
  }

  /** What the line loses is the squared length of its prediction change. */
  lemma LineExcess(x1: Vec, x2: Vec, y: Vec, f: Fit, l: LineFit)
    requires |x1| == |x2| == |y| && y != []
    requires TwoFeatureOls(x1, x2, y) == Ok(f) && OneFeatureOls(x1, y) == Ok(l)
    ensures var q := Combine(f.lag24h - l.slope, Centered(x1), f.lag168h, Centered(x2));
            LineError(l, x1, y) == SquaredError(f, x1, x2, y) + Dot(q, q)
  {
    TwoFeatureOptimal(x1, x2, y);
    LineErrorIsSquaredError(l, x1, x2, y);
    ErrorDecomposes(f, AsFit(l), x1, x2, y);
    PredictionChange(f, l, x1, x2, y);
  }

  /** Both fits pass through the means, so their predictions differ by a combination of deviations. */
  lemma PredictionChange(f: Fit, l: LineFit, x1: Vec, x2: Vec, y: Vec)
    requires |x1| == |x2| == |y| && y != []
    requires Predict(f, Mean(x1), Mean(x2)) == Mean(y) == Predict(AsFit(l), Mean(x1), Mean(x1))
    ensures Predictions(Difference(f, AsFit(l)), x1, x2)
         == Combine(f.lag24h - l.slope, Centered(x1), f.lag168h, Centered(x2))
  {
    var d := Difference(f, AsFit(l));
    PredictDifference(f, AsFit(l), Mean(x1), Mean(x2));
    forall i | 0 <= i < |x1|
      ensures Predict(d, x1[i], x2[i]) == Mix(d.lag24h, Centered(x1)[i], d.lag168h, Centered(x2)[i])
    {
      CentredRelation(d, x1[i], x2[i], Mean(x1), Mean(x2));
    }
  }
}
