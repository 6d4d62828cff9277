// Model of code/derivatives_numba.py: `dfdx(f, dx, y)` fills the caller's
// buffer `y` with a loop over the interior indices followed by the two
// boundary writes, then returns `y`. The loop is a `prange`, run in
// parallel by numba; here it is run in index order, and RunIterations
// shows that any other order of the same iterations gives the same buffer.

module DerivativesNumba {
  import FiniteDifference
  import Derivatives

  /**
   * The value one loop iteration stores in `y[i]`. Python reads
   * `(f[i+1] - f[i-1]) / 2*dx` as `((f[i+1] - f[i-1]) / 2) * dx`, and so does
   * Dafny: the result is the central difference scaled by `dx*dx`.
   */
  function Step(f: seq<real>, dx: real, i: int): (v: real)
    requires 1 <= i < |f| - 1 && dx != 0.0
    ensures v == FiniteDifference.Derivative(f, dx)[i] * (dx * dx)
  {
    var p := f[i + 1] - f[i - 1];
    assert (p / (2.0 * dx)) * (dx * dx) == p / 2.0 * dx by {
      assert p / (2.0 * dx) * (2.0 * dx) == p;
    }
    p / 2.0 * dx
  }

  /** The contents of `y` after `dfdx` as written: no value that was in `y` survives. */
  function Computed(f: seq<real>, dx: real): (y: seq<real>)
    requires |f| >= 2 && dx != 0.0
    ensures |y| == |f|
    ensures y[0] == FiniteDifference.Derivative(f, dx)[0]
    ensures y[|f| - 1] == FiniteDifference.Derivative(f, dx)[|f| - 1]
    ensures forall i :: 1 <= i < |f| - 1 ==> y[i] == FiniteDifference.Derivative(f, dx)[i] * (dx * dx)
    ensures |f| == 2 ==> y[0] == y[1]
  {
    var n := |f|;
    seq(n, i requires 0 <= i < n =>
      if i == 0 then (f[1] - f[0]) / dx
      else if i == n - 1 then (f[n - 1] - f[n - 2]) / dx
      else Step(f, dx, i))
  }

  /**
   * The buffer `y` after the loop iterations for the indices of `order`, run
   * one after another in that order. Each iteration writes only its own
   * index and reads only `f`, so the outcome depends only on which indices
   * were run, not on the order.
   */
  function RunIterations(f: seq<real>, dx: real, y: seq<real>, order: seq<int>): (r: seq<real>)
    requires |f| == |y| && dx != 0.0
    requires forall k :: 0 <= k < |order| ==> 1 <= order[k] < |f| - 1
    ensures |r| == |y|
    ensures forall j :: 0 <= j < |y| && j in order ==> 1 <= j < |f| - 1 && r[j] == Step(f, dx, j)
    ensures forall j :: 0 <= j < |y| && j !in order ==> r[j] == y[j]
    decreases |order|
  {
    if order == [] then y
    else RunIterations(f, dx, y[order[0] := Step(f, dx, order[0])], order[1..])
  }

  /**
   * Whatever order the workers run the interior iterations in, and however
   * often an index is repeated, once every interior index has run and the two
   * boundary writes follow, the buffer is the same.
   */
  lemma {:induction false} AnyScheduleGivesComputed(f: seq<real>, dx: real, y: seq<real>, order: seq<int>)
    requires |f| == |y| >= 2 && dx != 0.0
    requires forall k :: 0 <= k < |order| ==> 1 <= order[k] < |f| - 1
    requires forall j :: 1 <= j < |f| - 1 ==> j in order
    ensures RunIterations(f, dx, y, order)[0 := (f[1] - f[0]) / dx][|f| - 1 := (f[|f| - 1] - f[|f| - 2]) / dx]
         == Computed(f, dx)
  {
    var n := |f|;
    var run := RunIterations(f, dx, y, order);
    var done := run[0 := (f[1] - f[0]) / dx][n - 1 := (f[n - 1] - f[n - 2]) / dx];
    var want := Computed(f, dx);
    forall j | 0 <= j < n
      ensures done[j] == want[j]
    {
      if 0 < j < n - 1 {
        assert j in order;
      }
    }
  }

  /** `dfdx` as written: updates `y` in place and returns the same buffer. */
  method Dfdx(f: seq<real>, dx: real, y: array<real>) returns (r: array<real>)
    requires |f| == y.Length >= 2 && dx != 0.0
    modifies y
    ensures r == y
    ensures y[..] == Computed(f, dx)
  {
    var n := y.Length;
    for i := 1 to n - 1
      invariant forall j :: 1 <= j < i ==> y[j] == Step(f, dx, j)
    {
      y[i] := (f[i + 1] - f[i - 1]) / 2.0 * dx;
    }
    y[0] := (f[1] - f[0]) / dx;
    y[n - 1] := (f[n - 1] - f[n - 2]) / dx;
    r := y;
  }

  /** On linear samples the boundary values are the slope; interior values are the slope times `dx*dx`. */
  lemma LinearSamples(m: real, c: real, dx: real, n: nat)
    requires n >= 2 && dx != 0.0
    ensures Computed(FiniteDifference.Linear(m, c, dx, n), dx)[0] == m
    ensures Computed(FiniteDifference.Linear(m, c, dx, n), dx)[n - 1] == m
    ensures forall i :: 1 <= i < n - 1 ==> Computed(FiniteDifference.Linear(m, c, dx, n), dx)[i] == m * (dx * dx)
  {
    FiniteDifference.DerivativeExactOnLinear(m, c, dx, n);
  }

  /**
   * On samples 1, 3, 7, 13 two apart, the code stores 6 at index 1 where the
   * central difference over 2*dx is 1.5.
   */
  lemma PrecedenceScalesByDxSquared()
    ensures Computed([1.0, 3.0, 7.0, 13.0], 2.0)[1] == 6.0
    ensures FiniteDifference.Derivative([1.0, 3.0, 7.0, 13.0], 2.0)[1] == 1.5
  {
  }

  /** Both kernels agree at index 0, and at indices 2..n-2 they agree whenever `dx*dx == 1`. */
  lemma KernelsAgree(f: seq<real>, dx: real, before: seq<real>)
    requires |f| == |before| >= 2 && dx != 0.0
    ensures Derivatives.Written(f, dx, before)[0] == Computed(f, dx)[0]
    ensures dx * dx == 1.0 ==>
      forall i :: 2 <= i < |f| - 1 ==> Derivatives.Written(f, dx, before)[i] == Computed(f, dx)[i]
  {
  }

  /** `dfdx` with the central difference divided by `2*dx`, as evidently intended. */
  method DfdxFixed(f: seq<real>, dx: real, y: array<real>) returns (r: array<real>)
    requires |f| == y.Length >= 2 && dx != 0.0
    modifies y
    ensures r == y
    ensures y[..] == FiniteDifference.Derivative(f, dx)
  {
    var n := y.Length;
    for i := 1 to n - 1
      invariant forall j :: 1 <= j < i ==> y[j] == (f[j + 1] - f[j - 1]) / (2.0 * dx)
    {
      y[i] := (f[i + 1] - f[i - 1]) / (2.0 * dx);
    }
    y[0] := (f[1] - f[0]) / dx;
    y[n - 1] := (f[n - 1] - f[n - 2]) / dx;
    r := y;
  }
}
