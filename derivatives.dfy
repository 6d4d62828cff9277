// Model of code/derivatives.py: `dfdx(f, dx, y)` fills the caller's buffer
// `y` with derivative estimates of the samples `f` by one slice assignment
// and two element assignments, then returns `y`. The samples are a value
// (the code never writes to `f`); `y` is an array updated in place.

module Derivatives {
  import FiniteDifference

  /**
   * The contents of `y` after `dfdx` as written, given its contents `before`.
   * Index 1 receives the negated backward difference (the write that line 6
   * evidently meant for `y[-1]`), and index n-1 is never written when n >= 3.
   */
  function Written(f: seq<real>, dx: real, before: seq<real>): (after: seq<real>)
    requires |f| == |before| >= 2 && dx != 0.0
    ensures |after| == |f|
    ensures after[0] == FiniteDifference.Derivative(f, dx)[0]
    ensures after[1] == -FiniteDifference.Derivative(f, dx)[|f| - 1]
    ensures forall i :: 2 <= i < |f| - 1 ==> after[i] == FiniteDifference.Derivative(f, dx)[i]
    ensures |f| >= 3 ==> after[|f| - 1] == before[|f| - 1]
    ensures |f| == 2 ==> after[1] == -after[0]
  {
    var n := |f|;
    // interior slice: central differences over 2*dx at indices 1..n-2
    var sliced := before[..1]
                  + seq(n - 2, k requires 0 <= k < n - 2 => (f[k + 2] - f[k]) / (2.0 * dx))
                  + before[n - 1..];
    // forward difference at index 0
    var forward := sliced[0 := (f[1] - f[0]) / dx];
    // the boundary write that lands on index 1 instead of n-1
    forward[1 := (f[n - 2] - f[n - 1]) / dx]
  }

  /** `dfdx` as written: updates `y` in place and returns the same buffer. */
  method Dfdx(f: seq<real>, dx: real, y: array<real>) returns (r: array<real>)
    requires |f| == y.Length >= 2 && dx != 0.0
    modifies y
    ensures r == y
    ensures y[..] == Written(f, dx, old(y[..]))
  {
    var n := y.Length;
    forall i | 1 <= i < n - 1 {
      y[i] := (f[i + 1] - f[i - 1]) / (2.0 * dx);
    }
    y[0] := (f[1] - f[0]) / dx;
    y[1] := (f[n - 2] - f[n - 1]) / dx;
    r := y;
  }

  /**
   * On samples 1, 3, 7, 13 one apart, the code leaves -6 at index 1 where the
   * central difference is 3, and keeps the stale value at index 3 where the
   * backward difference is 6.
   */
  lemma MisplacedWrite(before: seq<real>)
    requires |before| == 4
    ensures Written([1.0, 3.0, 7.0, 13.0], 1.0, before)
         == [2.0, -6.0, 5.0, before[3]]
    ensures FiniteDifference.Derivative([1.0, 3.0, 7.0, 13.0], 1.0) == [2.0, 3.0, 5.0, 6.0]
  {
    var f := [1.0, 3.0, 7.0, 13.0];
    var w, d := Written(f, 1.0, before), FiniteDifference.Derivative(f, 1.0);
    assert w[2] == (f[3] - f[1]) / 2.0;
    assert d[1] == (f[2] - f[0]) / 2.0 && d[2] == (f[3] - f[1]) / 2.0;
  }

  /** `dfdx` with the right-boundary write at index n-1, as evidently intended. */
  method DfdxFixed(f: seq<real>, dx: real, y: array<real>) returns (r: array<real>)
    requires |f| == y.Length >= 2 && dx != 0.0
    modifies y
    ensures r == y
    ensures y[..] == FiniteDifference.Derivative(f, dx)
  {
    var n := y.Length;
    forall i | 1 <= i < n - 1 {
      y[i] := (f[i + 1] - f[i - 1]) / (2.0 * dx);
    }
    y[0] := (f[1] - f[0]) / dx;
    y[n - 1] := (f[n - 1] - f[n - 2]) / dx;
    r := y;
  }
}
