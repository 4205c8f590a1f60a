/** The accumulator loops of the two regression fits, against the least-squares theory. */
module LinearRegression {
  import opened LeastSquares
  import opened Vectors
  import opened Wrappers

  method ComputeMean(values: Vec) returns (mean: real)
    requires values != []
    ensures mean == Mean(values)
  {
    var total := 0.0;
    for i := 0 to |values|
      invariant total == Sum(values[..i])
    {
      assert values[..i + 1][..i] == values[..i];
      total := total + values[i];
    }
    assert values[..|values|] == values;
    mean := total / |values| as real;
  }

  lemma DotStep(u: Vec, v: Vec, i: nat)
    requires |u| == |v| && i < |u|
    ensures Dot(u[..i + 1], v[..i + 1]) == Dot(u[..i], v[..i]) + u[i] * v[i]
  {
    assert u[..i + 1][..i] == u[..i] && v[..i + 1][..i] == v[..i];
  }

  function AddRow(m: Moments, dx1: real, dx2: real, dy: real): Moments {
    Moments(m.s11 + dx1 * dx1, m.s22 + dx2 * dx2, m.s12 + dx1 * dx2, m.t1 + dx1 * dy, m.t2 + dx2 * dy)
  }

  lemma MomentsStep(c1: Vec, c2: Vec, cy: Vec, i: nat, dx1: real, dx2: real, dy: real)
    requires |c1| == |c2| == |cy| && i < |c1|
    requires dx1 == c1[i] && dx2 == c2[i] && dy == cy[i]
    ensures MomentsOf(c1[..i + 1], c2[..i + 1], cy[..i + 1])
         == AddRow(MomentsOf(c1[..i], c2[..i], cy[..i]), dx1, dx2, dy)
  {
    DotStep(c1, c1, i);
    DotStep(c2, c2, i);
    DotStep(c1, c2, i);
    DotStep(c1, cy, i);
    DotStep(c2, cy, i);
  }

  /** One pass over the rows accumulates the five centred moments. */
  method AccumulateMoments(x1: Vec, x2: Vec, y: Vec, mean1: real, mean2: real, meanY: real) returns (m: Moments)
    requires |x1| == |x2| == |y| && y != []
    requires mean1 == Mean(x1) && mean2 == Mean(x2) && meanY == Mean(y)
    ensures m == CentredMoments(x1, x2, y)
  {
    ghost var c1, c2, cy := Centered(x1), Centered(x2), Centered(y);
    m := Moments(0.0, 0.0, 0.0, 0.0, 0.0);
    for i := 0 to |y|
      invariant m == MomentsOf(c1[..i], c2[..i], cy[..i])
    {
      var dx1 := x1[i] - mean1;
      var dx2 := x2[i] - mean2;
      var dy := y[i] - meanY;
      MomentsStep(c1, c2, cy, i, dx1, dx2, dy);
      m := AddRow(m, dx1, dx2, dy);
    }
    assert c1[..|y|] == c1 && c2[..|y|] == c2 && cy[..|y|] == cy;
  }

  /**
   * The two-feature computation. It accepts just the designs whose columns are not collinear with
   * the constant, and what it returns is the one parameter triple of least squared error.
   */
  method ComputeTwoFeatureOls(x1: Vec, x2: Vec, y: Vec) returns (r: Result<Fit, DesignError>)
    requires |x1| == |x2| == |y| && y != []
    ensures r == TwoFeatureOls(x1, x2, y)
    ensures if Collinear(x1, x2) then r == Err(SingularDesign) else r.Ok?
    ensures r.Ok? ==> UniqueMinimiser(r.value, x1, x2, y)
  {
    var mean1 := ComputeMean(x1);
    var mean2 := ComputeMean(x2);
    var meanY := ComputeMean(y);
    var m := AccumulateMoments(x1, x2, y, mean1, mean2, meanY);
    if Determinant(m) <= 0.0 {
      r := Err(SingularDesign);
    } else {
      r := Ok(Solve(m, mean1, mean2, meanY));
    }
    TwoFeatureOptimal(x1, x2, y);
  }

  /** One pass accumulates the deviation products of a line fit. */
  method AccumulateLine(x: Vec, y: Vec, mean: real, meanY: real) returns (numerator: real, denominator: real)
    requires |x| == |y| && y != []
    requires mean == Mean(x) && meanY == Mean(y)
    ensures numerator == Dot(Centered(x), Centered(y))
    ensures denominator == Dot(Centered(x), Centered(x))
  {
    ghost var c, cy := Centered(x), Centered(y);
    numerator, denominator := 0.0, 0.0;
    for i := 0 to |x|
      invariant numerator == Dot(c[..i], cy[..i])
      invariant denominator == Dot(c[..i], c[..i])
    {
      var deviation := x[i] - mean;
      var dy := y[i] - meanY;
      assert deviation == c[i] && dy == cy[i];
      DotStep(c, cy, i);
      DotStep(c, c, i);
      numerator := numerator + deviation * dy;
      denominator := denominator + deviation * deviation;
    }
    assert c[..|x|] == c && cy[..|x|] == cy;
  }

  /** The one-feature computation: accepted just when the lag varies, and then the best line. */
  method ComputeOneFeatureOls(x: Vec, y: Vec) returns (r: Result<LineFit, DesignError>)
    requires |x| == |y| && y != []
    ensures r == OneFeatureOls(x, y)
    ensures if Varies(x) then r.Ok? else r == Err(ZeroVariance)
    ensures r.Ok? ==> forall other | other != r.value :: LineError(r.value, x, y) < LineError(other, x, y)
  {
    OneFeatureAccepts(x, y);
    var mean := ComputeMean(x);
    var meanY := ComputeMean(y);
    var numerator, denominator := AccumulateLine(x, y, mean, meanY);
    if denominator == 0.0 {
      return Err(ZeroVariance);
    }
    r := Ok(SolveLine(denominator, numerator, mean, meanY));
    forall other | other != r.value
      ensures LineError(r.value, x, y) < LineError(other, x, y)
    {
      OneFeatureOptimal(r.value, x, y, other);
    }
  }
}
