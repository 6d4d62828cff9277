// The first-derivative rule both `dfdx` kernels are evidently meant to
// compute: a central difference over 2*dx at interior points, a forward
// difference at index 0 and a backward difference at index n-1. Samples and
// spacing are exact reals; floating-point rounding is not modelled.

module FiniteDifference {

  /** The intended derivative estimate of samples `f` taken `dx` apart. */
  function Derivative(f: seq<real>, dx: real): (y: seq<real>)
    requires |f| >= 2 && dx != 0.0
    ensures |y| == |f|
    ensures y[0] == (f[1] - f[0]) / dx
    ensures y[|f| - 1] == (f[|f| - 1] - f[|f| - 2]) / dx
    ensures forall i :: 1 <= i < |f| - 1 ==> y[i] == (f[i + 1] - f[i - 1]) / (2.0 * dx)
    ensures |f| == 2 ==> y[0] == y[1]
  {
    var n := |f|;
    seq(n, i requires 0 <= i < n =>
      if i == 0 then (f[1] - f[0]) / dx
      else if i == n - 1 then (f[n - 1] - f[n - 2]) / dx
      else (f[i + 1] - f[i - 1]) / (2.0 * dx))
  }

  /** Samples of the straight line `m*x + c` at `x = 0, dx, 2*dx, ...`. */
  function Linear(m: real, c: real, dx: real, n: nat): (f: seq<real>)
    ensures |f| == n
  {
    seq(n, i => m * (i as real) * dx + c)
  }

  /** The difference of two linear samples `j` steps apart is `j` times the rise per step. */
  lemma LinearStep(m: real, c: real, dx: real, n: nat, i: nat, j: nat)
    requires i + j < n
    ensures Linear(m, c, dx, n)[i + j] - Linear(m, c, dx, n)[i] == (j as real) * (m * dx)
  {
    var f := Linear(m, c, dx, n);
    calc {
      f[i + j] - f[i];
      m * ((i + j) as real) * dx - m * (i as real) * dx;
      m * dx * ((i + j) as real - i as real);
    }
  }

  /** A difference that is `m` times the divisor gives the quotient `m`. */
  lemma Quotient(p: real, d: real, m: real)
    requires d != 0.0 && p == m * d
    ensures p / d == m
  {
  }

  /** The estimate at index `i` is exact on linear samples. */
  lemma DerivativeExactAt(m: real, c: real, dx: real, n: nat, i: nat)
    requires n >= 2 && dx != 0.0 && i < n
    ensures Derivative(Linear(m, c, dx, n), dx)[i] == m
  {
    var f := Linear(m, c, dx, n);
    var y := Derivative(f, dx);
    if i == 0 {
      LinearStep(m, c, dx, n, 0, 1);
      Quotient(f[1] - f[0], dx, m);
    } else if i == n - 1 {
      LinearStep(m, c, dx, n, n - 2, 1);
      Quotient(f[n - 1] - f[n - 2], dx, m);
    } else {
      LinearStep(m, c, dx, n, i - 1, 2);
      assert f[i + 1] - f[i - 1] == m * (2.0 * dx);
      Quotient(f[i + 1] - f[i - 1], 2.0 * dx, m);
    }
  }

  /** Every estimate, interior and boundary, is exact on linear samples. */
  lemma DerivativeExactOnLinear(m: real, c: real, dx: real, n: nat)
    requires n >= 2 && dx != 0.0
    ensures forall i :: 0 <= i < n ==> Derivative(Linear(m, c, dx, n), dx)[i] == m
  {
    forall i | 0 <= i < n
      ensures Derivative(Linear(m, c, dx, n), dx)[i] == m
    {
      DerivativeExactAt(m, c, dx, n, i);
    }
  }

  /** `a*f1 + f2`, element by element. */
  function Combine(a: real, f1: seq<real>, f2: seq<real>): (g: seq<real>)
    requires |f1| == |f2|
    ensures |g| == |f1|
    ensures forall i :: 0 <= i < |f1| ==> g[i] == a * f1[i] + f2[i]
  {
    seq(|f1|, i requires 0 <= i < |f1| => a * f1[i] + f2[i])
  }

  /**
   * With `g = a*x + w` at two points, the difference quotient `yg` of `g`
   * is `a` times that of `x` plus that of `w`.
   */
  lemma QuotientOfCombination(a: real, x1: real, x0: real, w1: real, w0: real, g1: real, g0: real,
                              d: real, yx: real, yw: real, yg: real)
    requires d != 0.0 && g1 == a * x1 + w1 && g0 == a * x0 + w0
    requires yx == (x1 - x0) / d && yw == (w1 - w0) / d && yg == (g1 - g0) / d
    ensures yg == a * yx + yw
  {
    assert g1 - g0 == a * (x1 - x0) + (w1 - w0);
    assert (a * yx + yw) * d == a * (x1 - x0) + (w1 - w0);
  }

  /** The forward estimate at index 0 is linear in the samples. */
  lemma DerivativeIsLinearAtStart(a: real, f1: seq<real>, f2: seq<real>, dx: real)
    requires |f1| == |f2| >= 2 && dx != 0.0
    ensures Derivative(Combine(a, f1, f2), dx)[0]
         == a * Derivative(f1, dx)[0] + Derivative(f2, dx)[0]
  {
    var g := Combine(a, f1, f2);
    var x1, x0, w1, w0, g1, g0 := f1[1], f1[0], f2[1], f2[0], g[1], g[0];
    assert g1 == a * x1 + w1 && g0 == a * x0 + w0;
    var yg, yx, yw := Derivative(g, dx)[0], Derivative(f1, dx)[0], Derivative(f2, dx)[0];
    QuotientOfCombination(a, x1, x0, w1, w0, g1, g0, dx, yx, yw, yg);
  }

  /** The central estimate at an interior index is linear in the samples. */
  lemma DerivativeIsLinearInside(a: real, f1: seq<real>, f2: seq<real>, dx: real, i: nat)
    requires |f1| == |f2| >= 2 && dx != 0.0 && 0 < i < |f1| - 1
    ensures Derivative(Combine(a, f1, f2), dx)[i]
         == a * Derivative(f1, dx)[i] + Derivative(f2, dx)[i]
  {
    var g := Combine(a, f1, f2);
    var x1, x0, w1, w0, g1, g0 := f1[i + 1], f1[i - 1], f2[i + 1], f2[i - 1], g[i + 1], g[i - 1];
    assert g1 == a * x1 + w1 && g0 == a * x0 + w0;
    var yg, yx, yw := Derivative(g, dx)[i], Derivative(f1, dx)[i], Derivative(f2, dx)[i];
    QuotientOfCombination(a, x1, x0, w1, w0, g1, g0, 2.0 * dx, yx, yw, yg);
  }

  /** The backward estimate at index n-1 is linear in the samples. */
  lemma DerivativeIsLinearAtEnd(a: real, f1: seq<real>, f2: seq<real>, dx: real)
    requires |f1| == |f2| >= 2 && dx != 0.0
    ensures Derivative(Combine(a, f1, f2), dx)[|f1| - 1]
         == a * Derivative(f1, dx)[|f1| - 1] + Derivative(f2, dx)[|f1| - 1]
  {
    var n := |f1|;
    var g := Combine(a, f1, f2);
    var x1, x0, w1, w0, g1, g0 := f1[n - 1], f1[n - 2], f2[n - 1], f2[n - 2], g[n - 1], g[n - 2];
    assert g1 == a * x1 + w1 && g0 == a * x0 + w0;
    var yg, yx, yw := Derivative(g, dx)[n - 1], Derivative(f1, dx)[n - 1], Derivative(f2, dx)[n - 1];
    QuotientOfCombination(a, x1, x0, w1, w0, g1, g0, dx, yx, yw, yg);
  }

  /** The estimate is linear in the samples. */
  lemma DerivativeIsLinear(a: real, f1: seq<real>, f2: seq<real>, dx: real)
    requires |f1| == |f2| >= 2 && dx != 0.0
    ensures Derivative(Combine(a, f1, f2), dx)
         == Combine(a, Derivative(f1, dx), Derivative(f2, dx))
  {
    var l, r := Derivative(Combine(a, f1, f2), dx), Combine(a, Derivative(f1, dx), Derivative(f2, dx));
    forall i | 0 <= i < |f1|
      ensures l[i] == r[i]
    {
      if i == 0 {
        DerivativeIsLinearAtStart(a, f1, f2, dx);
      } else if i == |f1| - 1 {
        DerivativeIsLinearAtEnd(a, f1, f2, dx);
      } else {
        DerivativeIsLinearInside(a, f1, f2, dx, i);
      }
    }
  }
}
