# Root finding: bisection, fixed-point iteration and Newton's method

This project models the numeric core of a small web application that finds a
real root of a user-supplied expression. The core is three iterative solvers
in `app.py`:

- `bisection_method` refuses an interval whose endpoint values do not change
  sign. Otherwise, while the half-width `(b - a)/2` exceeds `epsilon` and
  budget is left, it halves the bracket `[a, b]`. It stops early if it finds an
  exact zero at a midpoint. Otherwise it returns the midpoint of the final
  bracket. The order `a < b` is not checked. With `b < a` and
  `epsilon >= 0`, the half-width is negative, so the loop ends at once and the
  midpoint is returned without any halving (`Bisection.ReversedIntervalNoHalving`).
- `fixed_point_iteration` iterates `x := g(x)` until two successive iterates differ by less than
  `epsilon`, or until the budget runs out.
- `newtons_method` iterates `x := x - f(x)/f'(x)`. It gives up with a message on
  a zero derivative, and otherwise stops like fixed-point iteration.

Each solver has a module. In each one:

- the source's `while` loop is a method: `Bisection.BisectionMethod`,
  `FixedPoint.FixedPointIteration` or `Newton.NewtonsMethod`;
- the loop's meaning is a recursive function `Iterate`. It returns a `Halt`
  value that records why and where the loop stopped, and how many passes it
  completed;
- `Solve` turns that `Halt` into the result the source returns;
- each method is proved to return `Solve` of its inputs. The proof rests on
  the loop invariant `Iterate(current state) == Iterate(initial state)`;
- lemmas state what the source promises about the loop and its result:
  - bisection: the bracket invariant, the iteration bound, where the result
    lies and the tolerance reached;
  - fixed-point and Newton: how the stopping point relates to the orbit of
    the start value.

The result type `Results.SolverResult` is `Root(x)` or `Failure(kind)`. The
two kinds stand for the two strings the source returns
(`Results.Message` gives their exact text):

- `NoSignChange` for app.py line 23;
- `ZeroDerivative` for app.py line 55.

The user's expression and its derivative are parameters of type
`real -> real`. All arithmetic is exact `real` arithmetic. `max_iter` is an
`int` and `epsilon` a `real`, and neither is constrained. The three methods
take the same defaults as app.py, `max_iter = 100` and `epsilon = 1e-5`
(written `0.00001`). The web route passes neither argument (app.py:79, 82, 84),
so these are the values the program runs with.

`app.py` validates neither `epsilon` nor `max_iter`, and the model adds no
such check:

- A budget of zero or less means no iterations at all.
- A tolerance of zero or less means the tolerance test never stops the loop.
  This holds for fixed-point iteration, for Newton, and for bisection with `a < b`.
  Bisection can still return early on an exact zero (app.py:28-29), and Newton
  can still stop on a zero derivative (app.py:54-55). For bisection with
  `b < a` the width test is already met on entry, for any `epsilon >= (b - a)/2`.

`app.py` does not catch exceptions raised by `f`, `g` or `f'`: such an
exception leaves the solver. The model treats the functions as total and has
no error variant for them.

Over exact reals, the `else` branch of bisection (app.py:32-33) always means
`f(a) * f(c) > 0`. It never means `f(a) * f(c) == 0`:

- The loop keeps `f(a) * f(b) < 0`, so `f(a) != 0`.
  `Bisection.IterateKeepsSignChange` proves this for either order of `a` and
  `b`. For `a < b`, `Bisection.HalvingKeepsBracket` proves one pass keeps the
  whole bracket invariant, and `Bisection.IterateKeepsBracket` proves the
  whole loop does.
- The test at app.py:28 gives `f(c) != 0`.
- Given those two facts, `Bisection.ElseBranchKeepsSignChange` shows that the
  `else` branch means `f(a) * f(c) > 0`, and that the sign change moves to
  `[c, b]`.

In floating point this does not hold; see "## Left out".

## Model

| member | source | states |
|---|---|---|
| Bisection.BisectionMethod | app.py:21-35 | the loop returns exactly `Solve(f, a, b, max_iter, epsilon)`; it fails, with `NoSignChange`, exactly when `f(a) * f(b) >= 0` at entry ; `max_iter` defaults to 100 and `epsilon` to 1e-5, as at app.py:21 |
| Bisection.Iterate | app.py:26-35 | the loop does between k and max(k, max_iter) halvings; an exact-zero stop has `f(c) == 0` and happens before the budget is spent; a stop with budget left has half-width `(b - a)/2 <= epsilon` |
| Bisection.ElseBranchKeepsSignChange | app.py:30-33 | if `f(a) * f(b) < 0`, `f(c) != 0` and `f(a) * f(c) < 0` is false, then `f(a) * f(c) > 0` (never 0) and `f(c) * f(b) < 0` |
| Bisection.HalvingKeepsBracket | app.py:27-34 | one pass that finds no exact zero maps a bracket after k halvings (inside `[a0, b0]`, sign change, width `(b0 - a0)/2^k`) to a bracket after k + 1 halvings |
| Bisection.IterateKeepsBracket | app.py:26-35 | from any bracket after k halvings, the loop ends on an exact zero strictly inside `(a0, b0)` or on a final bracket that still satisfies the bracket invariant |
| Bisection.IterateKeepsSignChange | app.py:26-34 | for either order of `a` and `b`, a sign change `f(a) * f(b) < 0` at entry is still there across the final bracket when the loop stops without an exact zero |
| Bisection.BisectionBracket | app.py:21-35 | for `a < b` with a sign change: the result is the final estimate; at most max(0, max_iter) halvings; an exact zero lies strictly in `(a, b)`; otherwise the final bracket satisfies `a <= a' < b' <= b`, `f(a') * f(b') < 0` and `b' - a' == (b - a)/2^halvings`, and has half-width `<= epsilon` unless the budget ran out |
| Bisection.BisectionResultInInterval | app.py:26-35 | for `a < b` with a sign change, the result is a `Root` inside `[a, b]` |
| Bisection.BisectionWithinEpsilon | app.py:26-35 | when the loop stopped on the width test, the returned midpoint is within `epsilon` of every point of the final bracket |
| Bisection.ReversedIntervalNoHalving | app.py:21-26 | with `b < a`, a sign change and `epsilon >= 0`, the loop does no halving. It stops on the width test with the bracket unchanged, and the result is `(a + b)/2` |
| Bisection.SquareRootOfTwoBracketed | app.py:21-35 | `x^2 - 2` on `[0, 2]` gives a `Root` in `[0, 2]` |
| Bisection.NoSignChangeOnThreeFive | app.py:22-23 | `x^2 - 2` on `[3, 5]` gives the `NoSignChange` failure |
| FixedPoint.FixedPointIteration | app.py:38-46 | the loop returns exactly `Solve(g, x0, max_iter, epsilon)`; the result is always a `Root`; with `max_iter <= 0` it is `x0` unchanged ; `max_iter` defaults to 100 and `epsilon` to 1e-5, as at app.py:38 |
| FixedPoint.Iterate | app.py:39-46 | an accepting stop returns `g(prev)` with `abs(g(prev) - prev) < epsilon` before the budget is spent; a budget stop comes after exactly max(k, max_iter) passes |
| FixedPoint.IterateFollowsOrbit | app.py:40-46 | started at the k-th point of the orbit `g^k(x0)`: the previous and returned iterates are the orbit's n-th and (n+1)-th points (or, on a budget stop, its n-th point), and every pass before the stop failed the tolerance test |
| FixedPoint.FixedPointEvaluations | app.py:40-46 | `g` is evaluated at most max(0, max_iter) times, and every pass before the stop failed the tolerance test |
| FixedPoint.FixedPointConverged | app.py:41-43 | on an accepting stop, the result is `g(p)` where `p = g^n(x0)` with `n < max_iter`, and `abs(g(p) - p) < epsilon` |
| FixedPoint.FixedPointExhausted | app.py:44-46 | on a budget stop, the result is `g` applied max(0, max_iter) times to `x0`, with no tolerance check |
| FixedPoint.FixedPointConvergesIff | app.py:40-43 | the loop stops on the tolerance test exactly when some orbit step n < max_iter passes it |
| Newton.NewtonsMethod | app.py:49-61 | the loop returns exactly `Solve(f, f', x0, max_iter, epsilon)`; its only failure is `ZeroDerivative`; with `max_iter <= 0` it returns `x0`; with budget and `f'(x0) == 0` it fails at once ; `max_iter` defaults to 100 and `epsilon` to 1e-5, as at app.py:49 |
| Newton.Iterate | app.py:50-61 | an accepting stop has `f'(prev) != 0`, `x == prev - f(prev)/f'(prev)` and `abs(x - prev) < epsilon`; a zero-slope stop has `f'(at) == 0`; both happen before the budget is spent; a budget stop comes after max(k, max_iter) passes |
| Newton.IterateFollowsOrbit | app.py:51-60 | started at the k-th Newton iterate: every stop is at a point of the Newton orbit (the next point too, on acceptance), and every pass before it failed the tolerance test |
| Newton.OrbitEndsAfterZeroSlope | app.py:54-56 | no Newton step is taken from an iterate with a zero derivative: the orbit has no later points |
| Newton.NewtonFailsIff | app.py:51-58 | the result is the zero-derivative failure exactly when some iterate n < max_iter has `f' == 0` and every earlier step failed the tolerance test |
| Newton.NewtonZeroSlope | app.py:51-55 | on a zero-derivative stop, the result is the `ZeroDerivative` failure. The stopping iterate is the orbit's n-th point with n < max_iter, and `f'` is zero there. Every earlier step failed the tolerance test, and the orbit has no later points |
| Newton.NewtonConverged | app.py:56-58 | on acceptance, the result is `p - f(p)/f'(p)` for the orbit's n-th point p, with `f'(p) != 0`; it moved less than `epsilon` from p, and every earlier step moved at least `epsilon` |
| Newton.NewtonExhausted | app.py:59-61 | on a budget stop, the result is the max(0, max_iter)-th Newton iterate, with no tolerance check, and every pass failed the test |
| Newton.CubeFromZeroFails | app.py:53-55 | `x^3` from `x0 = 0` stops on the first pass, after 0 completed passes, at the zero derivative at 0, and the result is the `ZeroDerivative` failure |
| Newton.SquareRootOfTwo | app.py:49-61 | `x^2 - 2` from `x0 = 1` returns 665857/470832. The loop stops through the tolerance test after 3 failed passes, so on the fourth pass, against the previous iterate 577/408 |

## Left out

- `read_function` (app.py:7-18) is not part of this model. It parses the
  expression, differentiates it symbolically and compiles both with a
  symbolic-math library. Its two outputs become the parameters `f`/`g` and
  `fPrime` of type `real -> real`.
- The Flask route and application setup (app.py:63-92) are HTTP form handling,
  `float()` conversion, template rendering and the server run, all of it I/O.
  The dispatch on the method choice only calls one of the three solvers; an
  unknown choice leaves the result `None`.
- Underflow of the sign products is not modelled. The product of two nonzero
  floats can round to zero: with `f(a) = 1e-200` and `f(c) = -1e-200`,
  `f(a) * f(c)` is `-0.0`, which is not `< 0`.
  - At app.py:22 this refuses an interval that does have a sign change.
  - At app.py:30 it sends the loop to the `else` branch, which keeps the half
    without the sign change.

  Over exact reals neither can happen.
- Floating point is not modelled: rounding, overflow, NaN, infinities, numpy
  arrays and `np.abs` on arrays. Arithmetic is exact `real`, so an exact
  comparison such as `f(c) == 0` or `fpx == 0` holds in the model exactly when
  the real value is zero.
- Exceptions raised inside `f`, `g` or `f'` (division by zero, domain errors)
  are not modelled: the functions are total, and the source does not catch the
  exceptions either.
- Convergence to a true root is not stated: quadratic convergence of Newton,
  the distance of the bisection result from a root of a continuous `f`, the
  Dottie-number fixed point of `cos`. These need continuity and analysis beyond
  the loops. `cos` has no counterpart over Dafny's `real`.
- Newton evaluates `f(x)` before the derivative test (app.py:52).
  `Newton.NewtonsMethod` does the same, but the specification `Newton.Iterate`
  does not record it: over total functions it has no observable effect.
