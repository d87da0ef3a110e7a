/** The bisection solver of app.py (`bisection_method`).

    `Iterate` is the specification of the halving loop: it says where the
    loop stops. `BisectionMethod` is the loop itself, proved to return
    `Solve`. The lemmas state what the loop promises about its result: the
    bracket invariant, the iteration bound, the position of the result and
    the tolerance reached.
 */
module Bisection {
  import opened Results

  /** Where the halving loop stops, after `halvings` completed halvings:
      at a midpoint `c` where f is exactly zero, or with the bracket [a, b]. */
  datatype Halt = ExactZero(c: real, halvings: nat) | Stopped(a: real, b: real, halvings: nat)
  {
    /** The number the solver returns for this halt. */
    function Estimate(): real {
      match this
      case ExactZero(c, _) => c
      case Stopped(a, b, _) => (a + b) / 2.0
    }
  }

  /** The loop of app.py run from bracket [a, b] with `k` halvings done. */
  function Iterate(f: real -> real, a: real, b: real, maxIter: int, epsilon: real, k: nat): (h: Halt)
    ensures k <= h.halvings <= Max(k, maxIter)
    ensures h.ExactZero? ==> h.halvings < maxIter && f(h.c) == 0.0
    ensures h.Stopped? && h.halvings < maxIter ==> (h.b - h.a) / 2.0 <= epsilon
    decreases maxIter - k
  {
    if (b - a) / 2.0 > epsilon && k < maxIter then
      var c := (a + b) / 2.0;
      if f(c) == 0.0 then ExactZero(c, k)
      else if f(a) * f(c) < 0.0 then Iterate(f, a, c, maxIter, epsilon, k + 1)
      else Iterate(f, c, b, maxIter, epsilon, k + 1)
    else
      Stopped(a, b, k)
  }

  /** The result of `bisection_method(f, a, b, maxIter, epsilon)`. */
  function Solve(f: real -> real, a: real, b: real, maxIter: int, epsilon: real): SolverResult {
    if f(a) * f(b) >= 0.0 then Failure(NoSignChange)
    else Root(Iterate(f, a, b, maxIter, epsilon, 0).Estimate())
  }

  method BisectionMethod(f: real -> real, a: real, b: real, maxIter: int := 100, epsilon: real := 0.00001)
    returns (r: SolverResult)
    ensures r == Solve(f, a, b, maxIter, epsilon)
    ensures r.Failure? <==> f(a) * f(b) >= 0.0
    ensures r.Failure? ==> r.kind == NoSignChange
  {
    if f(a) * f(b) >= 0.0 {
      return Failure(NoSignChange);
    }
    var lo, hi := a, b;
    var iterCount: nat := 0;
    while (hi - lo) / 2.0 > epsilon && iterCount < maxIter
      invariant Iterate(f, lo, hi, maxIter, epsilon, iterCount) == Iterate(f, a, b, maxIter, epsilon, 0)
      decreases maxIter - iterCount
    {
      var c := (lo + hi) / 2.0;
      if f(c) == 0.0 {
        return Root(c);
      } else if f(lo) * f(c) < 0.0 {
        hi := c;
      } else {
        lo := c;
      }
      iterCount := iterCount + 1;
    }
    return Root((lo + hi) / 2.0);
  }

  function Pow2(n: nat): (p: real)
    ensures p >= 1.0
  {
    if n == 0 then 1.0 else 2.0 * Pow2(n - 1)
  }

  /** [a, b] is the bracket after k halvings of the initial bracket [a0, b0]:
      it lies inside it, f changes sign across it, and its width is
      (b0 - a0) / 2^k. */
  ghost predicate Brackets(f: real -> real, a0: real, b0: real, a: real, b: real, k: nat) {
    && a0 <= a < b <= b0
    && f(a) * f(b) < 0.0
    && (b - a) * Pow2(k) == b0 - a0
  }

  /** The `else` branch keeps a sign change: when f(a) * f(b) < 0 and the
      midpoint value f(c) is not zero, failing the test f(a) * f(c) < 0 means
      f(a) * f(c) > 0 (never == 0), and then f changes sign across [c, b]. */
  lemma ElseBranchKeepsSignChange(f: real -> real, a: real, b: real, c: real)
    requires f(a) * f(b) < 0.0
    requires f(c) != 0.0
    requires !(f(a) * f(c) < 0.0)
    ensures f(a) * f(c) > 0.0
    ensures f(c) * f(b) < 0.0
  {
  }

  /** One pass of the loop body that does not find an exact zero turns a
      bracket after k halvings into a bracket after k + 1 halvings. */
  lemma HalvingKeepsBracket(f: real -> real, a0: real, b0: real, a: real, b: real, k: nat)
    requires Brackets(f, a0, b0, a, b, k)
    requires f((a + b) / 2.0) != 0.0
    ensures var c := (a + b) / 2.0;
            if f(a) * f(c) < 0.0 then Brackets(f, a0, b0, a, c, k + 1)
            else Brackets(f, a0, b0, c, b, k + 1)
  {
  }

  lemma {:induction false} IterateKeepsBracket(f: real -> real, a0: real, b0: real, maxIter: int, epsilon: real,
                                               a: real, b: real, k: nat)
    requires Brackets(f, a0, b0, a, b, k)
    ensures var h := Iterate(f, a, b, maxIter, epsilon, k);
            && (h.ExactZero? ==> a0 < h.c < b0)
            && (h.Stopped? ==> Brackets(f, a0, b0, h.a, h.b, h.halvings))
    decreases maxIter - k
  {
    if (b - a) / 2.0 > epsilon && k < maxIter {
      var c := (a + b) / 2.0;
      if f(c) != 0.0 {
        HalvingKeepsBracket(f, a0, b0, a, b, k);
        if f(a) * f(c) < 0.0 {
          IterateKeepsBracket(f, a0, b0, maxIter, epsilon, a, c, k + 1);
        } else {
          IterateKeepsBracket(f, a0, b0, maxIter, epsilon, c, b, k + 1);
        }
      }
    }
  }

  /** The loop keeps the sign change f(a) * f(b) < 0 whatever the order of
      a and b, so a reversed interval that is halved keeps it too. */
  lemma {:induction false} IterateKeepsSignChange(f: real -> real, a: real, b: real, maxIter: int, epsilon: real,
                                                  k: nat)
    requires f(a) * f(b) < 0.0
    ensures var h := Iterate(f, a, b, maxIter, epsilon, k);
            h.Stopped? ==> f(h.a) * f(h.b) < 0.0
    decreases maxIter - k
  {
    if (b - a) / 2.0 > epsilon && k < maxIter {
      var c := (a + b) / 2.0;
      if f(c) != 0.0 {
        if f(a) * f(c) < 0.0 {
          IterateKeepsSignChange(f, a, c, maxIter, epsilon, k + 1);
        } else {
          ElseBranchKeepsSignChange(f, a, b, c);
          IterateKeepsSignChange(f, c, b, maxIter, epsilon, k + 1);
        }
      }
    }
  }

  /** The width of a bracket after k halvings, as a quotient. */
  lemma BracketWidth(f: real -> real, a0: real, b0: real, a: real, b: real, k: nat)
    requires Brackets(f, a0, b0, a, b, k)
    ensures b - a == (b0 - a0) / Pow2(k)
  {
    var p := Pow2(k);
    assert (b - a) * p == b0 - a0;
  }

  /** On an input with a < b and a sign change, bisection returns a number,
      and the loop ends in one of two ways: an exact zero strictly inside
      [a, b] before the budget runs out, or a final bracket that still holds
      the sign change, has width (b - a) / 2^halvings after at most maxIter
      halvings and, unless the budget ran out, half-width at most epsilon. */
  lemma BisectionBracket(f: real -> real, a: real, b: real, maxIter: int, epsilon: real)
    requires a < b && f(a) * f(b) < 0.0
    ensures var h := Iterate(f, a, b, maxIter, epsilon, 0);
            && Solve(f, a, b, maxIter, epsilon) == Root(h.Estimate())
            && h.halvings <= Max(0, maxIter)
            && (h.ExactZero? ==> f(h.c) == 0.0 && a < h.c < b && h.halvings < maxIter)
            && (h.Stopped? ==>
                  && a <= h.a < h.b <= b
                  && f(h.a) * f(h.b) < 0.0
                  && h.b - h.a == (b - a) / Pow2(h.halvings)
                  && (h.halvings < maxIter ==> (h.b - h.a) / 2.0 <= epsilon))
  {
    assert Pow2(0) == 1.0;
    assert Brackets(f, a, b, a, b, 0);
    IterateKeepsBracket(f, a, b, maxIter, epsilon, a, b, 0);
    var h := Iterate(f, a, b, maxIter, epsilon, 0);
    assert Solve(f, a, b, maxIter, epsilon) == Root(h.Estimate());
    if h.Stopped? {
      BracketWidth(f, a, b, h.a, h.b, h.halvings);
    }
  }

  /** The returned number lies in the initial interval [a, b]. */
  lemma BisectionResultInInterval(f: real -> real, a: real, b: real, maxIter: int, epsilon: real)
    requires a < b && f(a) * f(b) < 0.0
    ensures Solve(f, a, b, maxIter, epsilon).Root?
    ensures a <= Solve(f, a, b, maxIter, epsilon).x <= b
  {
    BisectionBracket(f, a, b, maxIter, epsilon);
  }

  /** When the loop stopped on the width test (no exact zero, budget left),
      the returned midpoint is within epsilon of every point y of the final
      bracket. */
  lemma BisectionWithinEpsilon(f: real -> real, a: real, b: real, maxIter: int, epsilon: real, y: real)
    requires a < b && f(a) * f(b) < 0.0
    requires Iterate(f, a, b, maxIter, epsilon, 0).Stopped?
    requires Iterate(f, a, b, maxIter, epsilon, 0).halvings < maxIter
    requires Iterate(f, a, b, maxIter, epsilon, 0).a <= y <= Iterate(f, a, b, maxIter, epsilon, 0).b
    ensures Abs(Solve(f, a, b, maxIter, epsilon).x - y) <= epsilon
  {
  }

  /** The interval is not normalised: with b < a the width (b - a) / 2 is
      negative, so for epsilon >= 0 the loop ends before any halving and the
      midpoint of [b, a] is returned. */
  lemma ReversedIntervalNoHalving(f: real -> real, a: real, b: real, maxIter: int, epsilon: real)
    requires b < a && 0.0 <= epsilon && f(a) * f(b) < 0.0
    ensures Iterate(f, a, b, maxIter, epsilon, 0) == Stopped(a, b, 0)
    ensures Solve(f, a, b, maxIter, epsilon) == Root((a + b) / 2.0)
  {
  }

  /** f(x) = x^2 - 2 on [0, 2]: a sign change, so bisection returns a number in [0, 2]. */
  lemma SquareRootOfTwoBracketed()
    ensures var r := Solve(x => x * x - 2.0, 0.0, 2.0, 100, 0.00001);
            r.Root? && 0.0 <= r.x <= 2.0
  {
    var f := (x: real) => x * x - 2.0;
    assert f(0.0) * f(2.0) == -4.0;
    BisectionResultInInterval(f, 0.0, 2.0, 100, 0.00001);
  }

  /** f(x) = x^2 - 2 on [3, 5]: both endpoint values are positive, so bisection fails. */
  lemma NoSignChangeOnThreeFive()
    ensures Solve(x => x * x - 2.0, 3.0, 5.0, 100, 0.00001) == Failure(NoSignChange)
  {
  }
}
