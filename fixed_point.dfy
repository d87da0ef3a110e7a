/** The fixed-point solver of app.py (`fixed_point_iteration`).

    `Iterate` specifies the loop `x := g(x)`; `FixedPointIteration` is the
    loop, proved to return `Solve`. The lemmas tie the loop's stopping point
    to the orbit x0, g(x0), g(g(x0)), ... of the start value.
 */
module FixedPoint {
  import opened Results

  /** Where the loop stops after `steps` completed (non-accepting) passes:
      the new iterate `x = g(prev)` passed the tolerance test, or the budget
      ran out with last iterate `x`. */
  datatype Halt = Converged(x: real, prev: real, steps: nat) | Exhausted(x: real, steps: nat)
  {
    /** How many times the loop evaluated g. */
    function Evaluations(): nat {
      match this
      case Converged(_, _, steps) => steps + 1
      case Exhausted(_, steps) => steps
    }
  }

  /** g applied n times to x0. */
  function Orbit(g: real -> real, x0: real, n: nat): real {
    if n == 0 then x0 else g(Orbit(g, x0, n - 1))
  }

  /** The j-th step of the orbit fails the tolerance test. */
  predicate StillMoving(g: real -> real, x0: real, epsilon: real, j: nat) {
    Abs(Orbit(g, x0, j + 1) - Orbit(g, x0, j)) >= epsilon
  }

  /** The loop of app.py run from iterate x with `k` passes done. */
  function Iterate(g: real -> real, x: real, maxIter: int, epsilon: real, k: nat): (h: Halt)
    ensures k <= h.steps
    ensures h.Converged? ==> h.steps < maxIter && h.x == g(h.prev) && Abs(h.x - h.prev) < epsilon
    ensures h.Exhausted? ==> h.steps == Max(k, maxIter)
    decreases maxIter - k
  {
    if k < maxIter then
      var xNew := g(x);
      if Abs(xNew - x) < epsilon then Converged(xNew, x, k)
      else Iterate(g, xNew, maxIter, epsilon, k + 1)
    else
      Exhausted(x, k)
  }

  /** The result of `fixed_point_iteration(g, x0, maxIter, epsilon)`. */
  function Solve(g: real -> real, x0: real, maxIter: int, epsilon: real): SolverResult {
    Root(Iterate(g, x0, maxIter, epsilon, 0).x)
  }

  method FixedPointIteration(g: real -> real, x0: real, maxIter: int := 100, epsilon: real := 0.00001)
    returns (r: SolverResult)
    ensures r == Solve(g, x0, maxIter, epsilon)
    ensures r.Root?
    ensures maxIter <= 0 ==> r == Root(x0)
  {
    var x := x0;
    var iterCount: nat := 0;
    while iterCount < maxIter
      invariant Iterate(g, x, maxIter, epsilon, iterCount) == Iterate(g, x0, maxIter, epsilon, 0)
      decreases maxIter - iterCount
    {
      var xNew := g(x);
      if Abs(xNew - x) < epsilon {
        return Root(xNew);
      }
      x := xNew;
      iterCount := iterCount + 1;
    }
    return Root(x);
  }

  lemma {:induction false} IterateFollowsOrbit(g: real -> real, x0: real, maxIter: int, epsilon: real, k: nat)
    ensures var h := Iterate(g, Orbit(g, x0, k), maxIter, epsilon, k);
            && (h.Converged? ==> h.prev == Orbit(g, x0, h.steps) && h.x == Orbit(g, x0, h.steps + 1))
            && (h.Exhausted? ==> h.x == Orbit(g, x0, h.steps))
            && (forall j :: k <= j < h.steps ==> StillMoving(g, x0, epsilon, j))
    decreases maxIter - k
  {
    if k < maxIter && Abs(g(Orbit(g, x0, k)) - Orbit(g, x0, k)) >= epsilon {
      IterateFollowsOrbit(g, x0, maxIter, epsilon, k + 1);
      assert StillMoving(g, x0, epsilon, k);
    }
  }

  /** Every pass before the one that returns fails the tolerance test, and g
      is evaluated at most maxIter times (never, when maxIter <= 0). */
  lemma FixedPointEvaluations(g: real -> real, x0: real, maxIter: int, epsilon: real)
    ensures var h := Iterate(g, x0, maxIter, epsilon, 0);
            && Solve(g, x0, maxIter, epsilon) == Root(h.x)
            && h.Evaluations() <= Max(0, maxIter)
            && (forall j :: 0 <= j < h.steps ==> StillMoving(g, x0, epsilon, j))
  {
    IterateFollowsOrbit(g, x0, maxIter, epsilon, 0);
  }

  /** Returning through the tolerance test: the result is g(p) for the
      previous iterate p = g^n(x0), and |g(p) - p| < epsilon. */
  lemma FixedPointConverged(g: real -> real, x0: real, maxIter: int, epsilon: real)
    requires Iterate(g, x0, maxIter, epsilon, 0).Converged?
    ensures var h := Iterate(g, x0, maxIter, epsilon, 0);
            && h.prev == Orbit(g, x0, h.steps)
            && Solve(g, x0, maxIter, epsilon) == Root(g(h.prev))
            && Abs(g(h.prev) - h.prev) < epsilon
            && h.steps < maxIter
  {
    IterateFollowsOrbit(g, x0, maxIter, epsilon, 0);
  }

  /** Running out of budget: the result is g applied max(0, maxIter) times
      to x0, returned without a tolerance check. */
  lemma FixedPointExhausted(g: real -> real, x0: real, maxIter: int, epsilon: real)
    requires Iterate(g, x0, maxIter, epsilon, 0).Exhausted?
    ensures Solve(g, x0, maxIter, epsilon) == Root(Orbit(g, x0, Max(0, maxIter)))
  {
    IterateFollowsOrbit(g, x0, maxIter, epsilon, 0);
  }

  /** The loop stops through the tolerance test exactly when some step
      n < maxIter of the orbit passes it. */
  lemma FixedPointConvergesIff(g: real -> real, x0: real, maxIter: int, epsilon: real)
    ensures Iterate(g, x0, maxIter, epsilon, 0).Converged?
            <==> exists n :: 0 <= n < maxIter && !StillMoving(g, x0, epsilon, n)
  {
    var h := Iterate(g, x0, maxIter, epsilon, 0);
    IterateFollowsOrbit(g, x0, maxIter, epsilon, 0);
    if h.Converged? {
      assert !StillMoving(g, x0, epsilon, h.steps);
    }
  }
}
