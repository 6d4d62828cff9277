# python-102 sequence routines in Dafny

This project models the four small sequence routines of the python-102
teaching repository and proves what they do:

- `strflip` (code/strflip.py) builds a string by walking an index down from
  the end. It appends each character and stops as soon as the appended
  character equals `s[0]`. Module `StrFlip`, file `strflip.dfy`.
- `flip_list` (code/flip_list-v1.py) reverses a list. It either returns the
  new list `a[::-1]` or overwrites the caller's list and returns `None`.
  Module `FlipList`, file `flip_list.dfy`.
- `dfdx` in code/derivatives.py fills a caller-owned buffer `y` with
  finite-difference derivative estimates of the samples `f`. It uses one numpy
  slice assignment and two element assignments. Module `Derivatives`, file
  `derivatives.dfy`.
- `dfdx` in code/derivatives_numba.py does the same job with a numba `prange`
  loop over the interior indices and two boundary writes. Module
  `DerivativesNumba`, file `derivatives_numba.dfy`.

Module `FiniteDifference` (file `finite_difference.dfy`) is the derivative
rule both kernels are evidently meant to compute. It uses a central difference
over `2*dx` inside, a forward difference at index 0 and a backward difference
at index n-1. It is proved exact on linear samples and linear in the samples.
Both kernels are stated against it.

Representation choices:
- Strings are `seq<char>`.
- Lists are `array<T>`, and `None` is `null`.
- Samples `f` are a `seq<real>`, a value separate from the buffer `y`. The code
  never writes through `f`, but Python would also accept the call
  `dfdx(f, dx, f)`; the model assumes `f` and `y` are different arrays (see
  "## Left out").
- The output buffer `y` is an `array<real>` that the kernels update in place.
  Each kernel returns that same array.
- Python's `y[-1]` and `f[-2]` are written as `y[n - 1]` and `f[n - 2]`.

The code checks neither `dx` nor the shapes of `f` and `y`. The model states
both as requires clauses: `|f| == y.Length >= 2` and `dx != 0.0`. Under those
conditions every index is in range and no division is by zero.

## Model

| member | source | states |
|---|---|---|
| `StrFlip.StrFlip` | code/strflip.py:16-37 | The loop terminates and never indexes below 0. The empty string gives `""`. Otherwise the result is `s[n-1], ..., s[k]`, where `k` is the largest index with `s[k] == s[0]` (`ReadsBackToFirstChar`). |
| `StrFlip.ReadsBackDeterministic` | code/strflip.py:28-35 | At most one string meets that characterisation, so it fixes the loop's result exactly. |
| `StrFlip.PrefixOfReversal` | code/strflip.py:23-35 | The result has length between 1 and `len(s)` and is a prefix of the full reversal `Flipped(s)`. |
| `StrFlip.FullReversalWhenFirstCharUnique` | code/strflip.py:12-35 | When `s[0]` occurs nowhere else in `s`, the result is the full reversal that the doc-comment promises. |
| `StrFlip.OneCharFlipsToItself` | code/test_strflip.py:6-7 | A one-character string flips to itself. |
| `StrFlip.RepeatedFirstCharTruncates` | code/test_strflip.py:9-10 | For `"abca"` the loop returns `"a"`, not the reversal `"acba"` that the test expects. |
| `StrFlip.StrFlipFixed` | code/strflip.py:28-35 | The same loop stopping at index 0 returns exactly `Flipped(s)` for every `s`. |
| `FlipList.Flipped` | code/flip_list-v1.py:21-22 | The copy `a[::-1]` has the same length as `a` and holds `a[n-1-i]` at index `i`, so `[]` flips to `[]`. |
| `FlipList.FlippedTwice` | code/flip_list-v1.py:19-22 | Reversing twice gives back the original sequence. |
| `FlipList.FlipList` | code/flip_list-v1.py:1-22 | In-place mode leaves `a` holding `Flipped(old a)` and returns `None`, which is what copy mode would return. Copy mode leaves `a` unchanged and returns a fresh array holding `Flipped(a)`. |
| `FiniteDifference.Derivative` | code/derivatives.py:4-6 | The intended estimate has the same length as `f`. It is the forward difference at 0, the backward difference at n-1 and `(f[i+1]-f[i-1])/(2*dx)` inside. When n == 2 both ends are equal. |
| `FiniteDifference.DerivativeExactOnLinear` | code/derivatives_numba.py:7-8 | On samples `m*i*dx + c`, every estimate, at the boundary and inside, equals the slope `m`. |
| `FiniteDifference.DerivativeIsLinear` | code/derivatives.py:4-6 | The estimate of `a*f1 + f2` is `a` times the estimate of `f1` plus the estimate of `f2`. |
| `Derivatives.Written` | code/derivatives.py:4-6 | After the code, index 0 holds the forward difference. Indices 2..n-2 hold the central difference. Index 1 holds the negated backward difference. When n >= 3, index n-1 keeps its old value. When n == 2, `y[1] == -y[0]`. |
| `Derivatives.Dfdx` | code/derivatives.py:3-7 | The buffer `y` ends up as `Written(f, dx, old y)`, and the same buffer is returned. |
| `Derivatives.MisplacedWrite` | code/derivatives.py:6 | For `f = [1, 3, 7, 13]` and `dx = 1` the code leaves `[2, -6, 5, old]`. The intended result is `[2, 3, 5, 6]`. |
| `Derivatives.DfdxFixed` | code/derivatives.py:3-7 | With the last write at index n-1, the buffer ends up as the intended `Derivative(f, dx)`. |
| `DerivativesNumba.Step` | code/derivatives_numba.py:6 | One loop iteration stores `((f[i+1]-f[i-1])/2)*dx`. That is the central difference times `dx*dx`. |
| `DerivativesNumba.Computed` | code/derivatives_numba.py:5-8 | Both boundary values are the intended one-sided differences. Each interior value is the central difference times `dx*dx`. No old value of `y` survives. When n == 2, `y[0] == y[1]`. |
| `DerivativesNumba.RunIterations` | code/derivatives_numba.py:5-6 | Running loop iterations in any order writes `Step(f, dx, j)` at each index `j` that was run. Every other index is left alone, so iterations write disjoint slots. |
| `DerivativesNumba.AnyScheduleGivesComputed` | code/derivatives_numba.py:5-8 | Take any order of the interior iterations, with repeats allowed, that covers every interior index. Running it and then the two boundary writes gives the same buffer, `Computed(f, dx)`. |
| `DerivativesNumba.Dfdx` | code/derivatives_numba.py:4-9 | The buffer `y` ends up as `Computed(f, dx)`, and the same buffer is returned. |
| `DerivativesNumba.LinearSamples` | code/derivatives_numba.py:7-8 | On samples `m*i*dx + c`, both boundary values are `m`. Interior values are `m*dx*dx`. |
| `DerivativesNumba.PrecedenceScalesByDxSquared` | code/derivatives_numba.py:6 | For `f = [1, 3, 7, 13]` and `dx = 2` the loop stores 6 at index 1. The central difference there is 1.5. |
| `DerivativesNumba.KernelsAgree` | code/derivatives_numba.py:6-7 | The two kernels give the same `y[0]`. At indices 2..n-2 they agree whenever `dx*dx == 1`. |
| `DerivativesNumba.DfdxFixed` | code/derivatives_numba.py:4-9 | With the interior divided by `2*dx`, the buffer ends up as the intended `Derivative(f, dx)`. |

## Left out

- Plotting (code/graphics.py, code/draw_triangles-v1.py, code/draw_triangles-v2.py, scripts/make-triangles.py): matplotlib side effects with nothing to prove.
- CSV reading (code/my_csv.py): file I/O and pandas DataFrame construction, a library this model cannot see.
- Parallel execution of the numba `prange` loop: the loop runs sequentially. Order independence, for distinct `f` and `y`, is shown by `RunIterations` and `AnyScheduleGivesComputed`. Threads and the `@jit` compilation are not modelled.
- Floating point: samples and spacing are exact `real`s, so IEEE rounding is not modelled. Neither are accuracy-order claims or the inf/NaN or ZeroDivisionError that `dx == 0` would produce. `dx == 0` is excluded by a requires clause.
- numpy broadcasting and general negative indexing: only the fixed offsets `-1` and `-2` occur, translated to `n - 1` and `n - 2`.
- Bad shapes: the code has no checks of its own, and what happens depends on the kernel. In code/derivatives.py, fewer than two samples make `f[1]` raise IndexError, and most length mismatches make the slice assignment raise a numpy broadcast ValueError, though some (three samples, for one) broadcast silently. The nopython numba kernel does no bounds checking, so it reads out of range when there are fewer than two samples or `len(f) < len(y)`, and runs without error when `len(f) > len(y)`. The requires clause `|f| == y.Length >= 2` excludes all of these inputs; the model does not describe those errors or out-of-range reads.
- Aliasing of `f` and `y`: samples are a value separate from the buffer, so the call `dfdx(f, dx, f)` is not modelled. In code/derivatives.py that call would make line 5 read `f[1]` after line 4 overwrote it, so `y[0]` would not be the forward difference. In code/derivatives_numba.py, iteration `i` would read `f[i-1]` after iteration `i-1` may have overwritten it, so the result would depend on the `prange` schedule. `RunIterations` and `AnyScheduleGivesComputed` prove order independence only for distinct buffers.
- `FlipList.FlipList`: Python lists can change length, but neither mode does, so a fixed-length array stands in for the list. The new list in copy mode is a fresh array.
- `FlipList.FlipList`: `inplace` is a `bool` defaulting to `false`. Python's test `inplace is True` sends every other value, even a truthy one such as `1`, to copy mode; a `bool` parameter cannot express those values.
- The test file code/test_strflip.py is not modelled as code. Its three assertions appear as `StrFlip.StrFlip` (empty string), `StrFlip.OneCharFlipsToItself` and `StrFlip.RepeatedFirstCharTruncates`.

## Findings

| source | as written | input that shows it | evidently intended | confidence | as-written member | corrected member |
|---|---|---|---|---|---|---|
| code/strflip.py:34 | The loop stops when the character read equals `s[0]` | `"abca"` gives `"a"` | Stop at index 0, returning the full reversal `"acba"` that the doc-comment and code/test_strflip.py:10 expect | high, not executed | `StrFlip.RepeatedFirstCharTruncates` | `StrFlip.StrFlipFixed` |
| code/derivatives.py:6 | `y[1] = (f[-2] - f[-1]) / dx` overwrites the central value at index 1 and never writes index n-1 | `f = [1, 3, 7, 13]`, `dx = 1` gives `[2, -6, 5, old]` | `y[-1] = (f[-1] - f[-2]) / dx`, giving `[2, 3, 5, 6]` | high, not executed | `Derivatives.MisplacedWrite` | `Derivatives.DfdxFixed` |
| code/derivatives_numba.py:6 | `/ 2*dx` divides by 2 and then multiplies by `dx` | `f = [1, 3, 7, 13]`, `dx = 2` gives 6 at index 1 | Divide by `2*dx`, giving 1.5 | high, not executed | `DerivativesNumba.PrecedenceScalesByDxSquared` | `DerivativesNumba.DfdxFixed` |
