/** Newton's method of app.py (`newtons_method`).

    `Iterate` specifies the loop `x := x - f(x) / f'(x)`;
    `NewtonsMethod` is the loop, proved to return `Solve`. The Newton orbit
    is partial: it stops (None) past an iterate where the derivative is zero.
 */
module Newton {
  import opened Results

  /** Where the loop stops after `steps` completed passes: the new iterate
      `x` passed the tolerance test against `prev`, the derivative is zero at
      the current iterate `at`, or the budget ran out with last iterate `x`. */
  datatype Halt =
    | Converged(x: real, prev: real, steps: nat)
    | ZeroSlope(at: real, steps: nat)
    | Exhausted(x: real, steps: nat)

  /** One Newton step from x. */
  function Step(f: real -> real, fPrime: real -> real, x: real): real
    requires fPrime(x) != 0.0
  {
    x - f(x) / fPrime(x)
  }

  /** The n-th Newton iterate from x0, or None if a zero derivative is met first. */
  function Orbit(f: real -> real, fPrime: real -> real, x0: real, n: nat): Option<real> {
    if n == 0 then Some(x0)
    else
      match Orbit(f, fPrime, x0, n - 1)
      case None => None
      case Some(y) => if fPrime(y) == 0.0 then None else Some(Step(f, fPrime, y))
  }

  /** The j-th step of the orbit exists and fails the tolerance test. */
  predicate StillMoving(f: real -> real, fPrime: real -> real, x0: real, epsilon: real, j: nat) {
    && Orbit(f, fPrime, x0, j).Some?
    && Orbit(f, fPrime, x0, j + 1).Some?
    && Abs(Orbit(f, fPrime, x0, j + 1).value - Orbit(f, fPrime, x0, j).value) >= epsilon
  }

  /** The n-th iterate exists, has a zero derivative, and every earlier step
      failed the tolerance test. */
  predicate ZeroSlopeAt(f: real -> real, fPrime: real -> real, x0: real, epsilon: real, n: nat) {
    && Orbit(f, fPrime, x0, n).Some?
    && fPrime(Orbit(f, fPrime, x0, n).value) == 0.0
    && forall j :: 0 <= j < n ==> StillMoving(f, fPrime, x0, epsilon, j)
  }

  /** The loop of app.py run from iterate x with `k` passes done. */
  function Iterate(f: real -> real, fPrime: real -> real, x: real, maxIter: int, epsilon: real, k: nat): (h: Halt)
    ensures k <= h.steps
    ensures h.Converged? ==>
              && h.steps < maxIter
              && fPrime(h.prev) != 0.0
              && h.x == h.prev - f(h.prev) / fPrime(h.prev)
              && Abs(h.x - h.prev) < epsilon
    ensures h.ZeroSlope? ==> h.steps < maxIter && fPrime(h.at) == 0.0
    ensures h.Exhausted? ==> h.steps == Max(k, maxIter)
    decreases maxIter - k
  {
    if k < maxIter then
      if fPrime(x) == 0.0 then ZeroSlope(x, k)
      else
        var xNew := Step(f, fPrime, x);
        if Abs(xNew - x) < epsilon then Converged(xNew, x, k)
        else Iterate(f, fPrime, xNew, maxIter, epsilon, k + 1)
    else
      Exhausted(x, k)
  }

  /** The result of `newtons_method(f, fPrime, x0, maxIter, epsilon)`. */
  function Solve(f: real -> real, fPrime: real -> real, x0: real, maxIter: int, epsilon: real): SolverResult {
    match Iterate(f, fPrime, x0, maxIter, epsilon, 0)
    case Converged(x, _, _) => Root(x)
    case ZeroSlope(_, _) => Failure(ZeroDerivative)
    case Exhausted(x, _) => Root(x)
  }

  method NewtonsMethod(f: real -> real, fPrime: real -> real, x0: real, maxIter: int := 100, epsilon: real := 0.00001)
    returns (r: SolverResult)
    ensures r == Solve(f, fPrime, x0, maxIter, epsilon)
    ensures r.Failure? ==> r.kind == ZeroDerivative
    ensures maxIter <= 0 ==> r == Root(x0)
    ensures maxIter > 0 && fPrime(x0) == 0.0 ==> r == Failure(ZeroDerivative)
  {
    var x := x0;
    var iterCount: nat := 0;
    while iterCount < maxIter
      invariant Iterate(f, fPrime, x, maxIter, epsilon, iterCount) == Iterate(f, fPrime, x0, maxIter, epsilon, 0)
      decreases maxIter - iterCount
    {
      var fx := f(x);
      var fpx := fPrime(x);
      if fpx == 0.0 {
        return Failure(ZeroDerivative);
      }
      var xNew := x - fx / fpx;
      if Abs(xNew - x) < epsilon {
        return Root(xNew);
      }
      x := xNew;
      iterCount := iterCount + 1;
    }
    return Root(x);
  }

  lemma OrbitStep(f: real -> real, fPrime: real -> real, x0: real, x: real, k: nat)
    requires Orbit(f, fPrime, x0, k) == Some(x) && fPrime(x) != 0.0
    ensures Orbit(f, fPrime, x0, k + 1) == Some(Step(f, fPrime, x))
  {
  }

  lemma {:induction false} IterateFollowsOrbit(f: real -> real, fPrime: real -> real, x0: real, maxIter: int,
                                               epsilon: real, x: real, k: nat)
    requires Orbit(f, fPrime, x0, k) == Some(x)
    ensures var h := Iterate(f, fPrime, x, maxIter, epsilon, k);
            && (h.Converged? ==> Orbit(f, fPrime, x0, h.steps) == Some(h.prev)
                                 && Orbit(f, fPrime, x0, h.steps + 1) == Some(h.x))
            && (h.ZeroSlope? ==> Orbit(f, fPrime, x0, h.steps) == Some(h.at))
            && (h.Exhausted? ==> Orbit(f, fPrime, x0, h.steps) == Some(h.x))
            && (forall j :: k <= j < h.steps ==> StillMoving(f, fPrime, x0, epsilon, j))
    decreases maxIter - k
  {
    if k < maxIter && fPrime(x) != 0.0 {
      var xNew := Step(f, fPrime, x);
      OrbitStep(f, fPrime, x0, x, k);
      if Abs(xNew - x) >= epsilon {
        IterateFollowsOrbit(f, fPrime, x0, maxIter, epsilon, xNew, k + 1);
        assert StillMoving(f, fPrime, x0, epsilon, k);
      }
    }
  }

  /** A step is never taken from a zero derivative: past such an iterate the orbit ends. */
  lemma {:induction false} OrbitEndsAfterZeroSlope(f: real -> real, fPrime: real -> real, x0: real, n: nat, m: nat)
    requires Orbit(f, fPrime, x0, n).Some? && fPrime(Orbit(f, fPrime, x0, n).value) == 0.0
    requires n < m
    ensures Orbit(f, fPrime, x0, m) == None
    decreases m
  {
    if m - 1 > n {
      OrbitEndsAfterZeroSlope(f, fPrime, x0, n, m - 1);
    }
  }

  /** Newton returns the zero-derivative failure exactly when, for some
      n < maxIter, the n-th iterate has a zero derivative and no earlier step
      passed the tolerance test. */
  lemma NewtonFailsIff(f: real -> real, fPrime: real -> real, x0: real, maxIter: int, epsilon: real)
    ensures Solve(f, fPrime, x0, maxIter, epsilon).Failure?
            <==> exists n :: 0 <= n < maxIter && ZeroSlopeAt(f, fPrime, x0, epsilon, n)
  {
    var h := Iterate(f, fPrime, x0, maxIter, epsilon, 0);
    IterateFollowsOrbit(f, fPrime, x0, maxIter, epsilon, x0, 0);
    if h.ZeroSlope? {
      assert ZeroSlopeAt(f, fPrime, x0, epsilon, h.steps);
    } else {
      forall n | 0 <= n < maxIter
        ensures !ZeroSlopeAt(f, fPrime, x0, epsilon, n)
      {
        if n < h.steps {
          assert StillMoving(f, fPrime, x0, epsilon, n);
          assert fPrime(Orbit(f, fPrime, x0, n).value) != 0.0;
        } else if n > h.steps {
          assert !StillMoving(f, fPrime, x0, epsilon, h.steps);
        }
      }
    }
  }

  /** Stopping on a zero derivative: the current iterate is the orbit's n-th
      point for some n < maxIter, f' is zero there, every earlier step failed
      the tolerance test, and no step is taken from it (the orbit has no
      later points). */
  lemma NewtonZeroSlope(f: real -> real, fPrime: real -> real, x0: real, maxIter: int, epsilon: real)
    requires Iterate(f, fPrime, x0, maxIter, epsilon, 0).ZeroSlope?
    ensures var h := Iterate(f, fPrime, x0, maxIter, epsilon, 0);
            && Solve(f, fPrime, x0, maxIter, epsilon) == Failure(ZeroDerivative)
            && h.steps < maxIter
            && ZeroSlopeAt(f, fPrime, x0, epsilon, h.steps)
            && Orbit(f, fPrime, x0, h.steps) == Some(h.at)
            && (forall m: nat :: h.steps < m ==> Orbit(f, fPrime, x0, m) == None)
  {
    var h := Iterate(f, fPrime, x0, maxIter, epsilon, 0);
    IterateFollowsOrbit(f, fPrime, x0, maxIter, epsilon, x0, 0);
    forall m: nat | h.steps < m
      ensures Orbit(f, fPrime, x0, m) == None
    {
      OrbitEndsAfterZeroSlope(f, fPrime, x0, h.steps, m);
    }
  }

  /** Returning through the tolerance test: the previous iterate p is the
      orbit's n-th point, f'(p) != 0, the result is p - f(p) / f'(p) and it
      moved less than epsilon; every earlier step moved at least epsilon. */
  lemma NewtonConverged(f: real -> real, fPrime: real -> real, x0: real, maxIter: int, epsilon: real)
    requires Iterate(f, fPrime, x0, maxIter, epsilon, 0).Converged?
    ensures var h := Iterate(f, fPrime, x0, maxIter, epsilon, 0);
            && Orbit(f, fPrime, x0, h.steps) == Some(h.prev)
            && fPrime(h.prev) != 0.0
            && Solve(f, fPrime, x0, maxIter, epsilon) == Root(h.prev - f(h.prev) / fPrime(h.prev))
            && Abs(Solve(f, fPrime, x0, maxIter, epsilon).x - h.prev) < epsilon
            && h.steps < maxIter
            && (forall j :: 0 <= j < h.steps ==> StillMoving(f, fPrime, x0, epsilon, j))
  {
    IterateFollowsOrbit(f, fPrime, x0, maxIter, epsilon, x0, 0);
  }

  /** Running out of budget: the result is the max(0, maxIter)-th Newton
      iterate, returned without a tolerance check, after max(0, maxIter)
      passes that each failed the test. */
  lemma NewtonExhausted(f: real -> real, fPrime: real -> real, x0: real, maxIter: int, epsilon: real)
    requires Iterate(f, fPrime, x0, maxIter, epsilon, 0).Exhausted?
    ensures Orbit(f, fPrime, x0, Max(0, maxIter)).Some?
    ensures Solve(f, fPrime, x0, maxIter, epsilon) == Root(Orbit(f, fPrime, x0, Max(0, maxIter)).value)
    ensures forall j :: 0 <= j < maxIter ==> StillMoving(f, fPrime, x0, epsilon, j)
  {
    IterateFollowsOrbit(f, fPrime, x0, maxIter, epsilon, x0, 0);
  }

  /** f(x) = x^3 from x0 = 0: f'(0) = 0, so the first pass fails. */
  lemma CubeFromZeroFails()
    ensures Iterate(x => x * x * x, x => 3.0 * x * x, 0.0, 100, 0.00001, 0) == ZeroSlope(0.0, 0)
    ensures Solve(x => x * x * x, x => 3.0 * x * x, 0.0, 100, 0.00001) == Failure(ZeroDerivative)
  {
  }

  /** f(x) = x^2 - 2 from x0 = 1: the iterates are 3/2, 17/12, 577/408 and
      665857/470832, which passes the test |x_new - x| < 1e-5 on the fourth
      pass. */
  lemma SquareRootOfTwo()
    ensures Iterate(x => x * x - 2.0, x => 2.0 * x, 1.0, 100, 0.00001, 0)
            == Converged(665857.0 / 470832.0, 577.0 / 408.0, 3)
    ensures Solve(x => x * x - 2.0, x => 2.0 * x, 1.0, 100, 0.00001) == Root(665857.0 / 470832.0)
  {
    var f := (x: real) => x * x - 2.0;
    var fPrime := (x: real) => 2.0 * x;
    var eps := 0.00001;
    assert Step(f, fPrime, 1.0) == 3.0 / 2.0;
    assert Step(f, fPrime, 3.0 / 2.0) == 17.0 / 12.0;
    assert Step(f, fPrime, 17.0 / 12.0) == 577.0 / 408.0;
    assert Step(f, fPrime, 577.0 / 408.0) == 665857.0 / 470832.0;
    calc {
      Iterate(f, fPrime, 1.0, 100, eps, 0);
      Iterate(f, fPrime, 3.0 / 2.0, 100, eps, 1);
      Iterate(f, fPrime, 17.0 / 12.0, 100, eps, 2);
      Iterate(f, fPrime, 577.0 / 408.0, 100, eps, 3);
      Converged(665857.0 / 470832.0, 577.0 / 408.0, 3);
    }
  }
}
