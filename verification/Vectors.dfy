/** Exact real vectors: the sums that the regression loops accumulate, and their algebra. */
module Vectors {

  type Vec = seq<real>

  function Sum(u: Vec): real {
    if u == [] then 0.0 else Sum(u[..|u| - 1]) + u[|u| - 1]
  }

  function Dot(u: Vec, v: Vec): real
    requires |u| == |v|
  {
    if u == [] then 0.0
    else Dot(u[..|u| - 1], v[..|v| - 1]) + u[|u| - 1] * v[|v| - 1]
  }

  function Ones(n: nat): Vec {
    seq(n, _ => 1.0)
  }

  function Mix(a: real, x: real, b: real, y: real): real {
    a * x + b * y
  }

  /** The vector a*u + b*v. */
  function Combine(a: real, u: Vec, b: real, v: Vec): (r: Vec)
    requires |u| == |v|
    ensures |r| == |u|
  {
    seq(|u|, i requires 0 <= i < |u| => Mix(a, u[i], b, v[i]))
  }

  function Mean(u: Vec): real
    requires u != []
  {
    Sum(u) / |u| as real
  }

  /** Deviations from the mean. */
  function Centered(u: Vec): (r: Vec)
    requires u != []
    ensures |r| == |u|
  {
    var m := Mean(u);
    seq(|u|, i requires 0 <= i < |u| => u[i] - m)
  }

  ghost predicate Zero(u: Vec) {
    forall i :: 0 <= i < |u| ==> u[i] == 0.0
  }

  lemma {:induction false} DotSymmetric(u: Vec, v: Vec)
    requires |u| == |v|
    ensures Dot(u, v) == Dot(v, u)
  {
    if u != [] {
      DotSymmetric(u[..|u| - 1], v[..|v| - 1]);
    }
  }

  lemma {:induction false} DotLinear(a: real, u: Vec, b: real, v: Vec, w: Vec)
    requires |u| == |v| == |w|
    ensures Dot(Combine(a, u, b, v), w) == Mix(a, Dot(u, w), b, Dot(v, w))
  {
    if u != [] {
      var k := |u| - 1;
      DotLinear(a, u[..k], b, v[..k], w[..k]);
      var c := Combine(a, u, b, v);
      assert c[..k] == Combine(a, u[..k], b, v[..k]);
      assert c[k] == Mix(a, u[k], b, v[k]);
      Distribute(a, Dot(u[..k], w[..k]), u[k], b, Dot(v[..k], w[..k]), v[k], w[k]);
    }
  }

  lemma Distribute(a: real, du: real, x: real, b: real, dv: real, y: real, z: real)
    ensures Mix(a, du, b, dv) + Mix(a, x, b, y) * z == Mix(a, du + x * z, b, dv + y * z)
  {
  }

  lemma DotLinearRight(w: Vec, a: real, u: Vec, b: real, v: Vec)
    requires |u| == |v| == |w|
    ensures Dot(w, Combine(a, u, b, v)) == Mix(a, Dot(w, u), b, Dot(w, v))
  {
    DotLinear(a, u, b, v, w);
    DotSymmetric(w, Combine(a, u, b, v));
    DotSymmetric(w, u);
    DotSymmetric(w, v);
  }

  function PositiveProduct(x: real, y: real): (r: real)
    requires x > 0.0 && y > 0.0
    ensures r > 0.0
  {
    x * y
  }

  /** A square, with its sign. Facts about `Square(x)` reach the solver where facts about `x * x` do not. */
  function Square(x: real): (r: real)
    ensures r == x * x
    ensures r >= 0.0
    ensures x != 0.0 ==> r > 0.0
  {
    if x > 0.0 then PositiveProduct(x, x) else if x < 0.0 then PositiveProduct(-x, -x) else 0.0
  }

  lemma NothingLeft(d: real, x: real)
    requires d >= 0.0 && d + x * x <= 0.0
    ensures d == 0.0 && x == 0.0
  {
    assert Square(x) == x * x;
  }

  /** A sum of squares is never negative, and vanishes only at the zero vector. */
  lemma {:induction false} DotSelf(u: Vec)
    ensures Dot(u, u) >= 0.0
    ensures Dot(u, u) <= 0.0 ==> Zero(u)
  {
    if u != [] {
      var k := |u| - 1;
      DotSelf(u[..k]);
      assert Square(u[k]) == u[k] * u[k];
      if Dot(u, u) <= 0.0 {
        NothingLeft(Dot(u[..k], u[..k]), u[k]);
        assert forall i :: 0 <= i < k ==> u[i] == u[..k][i];
      }
    }
  }

  lemma {:induction false} DotOnes(u: Vec)
    ensures Dot(u, Ones(|u|)) == Sum(u)
  {
    if u != [] {
      assert Ones(|u|)[..|u| - 1] == Ones(|u| - 1);
      DotOnes(u[..|u| - 1]);
    }
  }

  lemma {:induction false} SumOnes(n: nat)
    ensures Sum(Ones(n)) == n as real
  {
    if n > 0 {
      assert Ones(n)[..n - 1] == Ones(n - 1);
      SumOnes(n - 1);
    }
  }

  /** Dot product with a zero vector. */
  lemma {:induction false} DotZero(u: Vec, v: Vec)
    requires |u| == |v| && Zero(u)
    ensures Dot(u, v) == 0.0
  {
    if u != [] {
      DotZero(u[..|u| - 1], v[..|v| - 1]);
    }
  }

  lemma CenteredIsCombination(u: Vec)
    requires u != []
    ensures Centered(u) == Combine(1.0, u, -Mean(u), Ones(|u|))
  {
  }

  /** Deviations from the mean add up to nothing. */
  lemma CenteredSumsToZero(u: Vec)
    requires u != []
    ensures Dot(Centered(u), Ones(|u|)) == 0.0
  {
    var n := |u|;
    CenteredIsCombination(u);
    DotLinear(1.0, u, -Mean(u), Ones(n), Ones(n));
    DotOnes(u);
    DotOnes(Ones(n));
    SumOnes(n);
    MeanCancels(Sum(u), n as real);
  }

  lemma MeanCancels(total: real, count: real)
    requires count != 0.0
    ensures Mix(1.0, total, -(total / count), count) == 0.0
  {
    assert total / count * count == total;
  }

  /** Deviations may be taken against the raw column: the means cancel. */
  lemma DotCentered(u: Vec, v: Vec)
    requires |u| == |v| && u != []
    requires Dot(v, Ones(|u|)) == 0.0
    ensures Dot(v, Centered(u)) == Dot(v, u)
  {
    CenteredIsCombination(u);
    DotLinearRight(v, 1.0, u, -Mean(u), Ones(|u|));
  }
}
