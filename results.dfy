/** Values shared by the three solvers of app.py.

    All arithmetic is over Dafny's exact `real`: floating-point rounding,
    overflow, NaN and infinities of the original are not modelled. The
    user's expression and its derivative are total functions `real -> real`.
 */
module Results {

  /** Why a solver gave up instead of returning a number. */
  datatype FailureKind =
    | NoSignChange    // bisection: f(a) * f(b) >= 0 at the endpoints
    | ZeroDerivative  // Newton: f'(x) == 0 at the current iterate

  /** What a solver returns: a number, or one of the two messages of app.py. */
  datatype SolverResult = Root(x: real) | Failure(kind: FailureKind)

  datatype Option<T> = None | Some(value: T)

  /** The exact text the original returns for each failure. */
  function Message(kind: FailureKind): string {
    match kind
    case NoSignChange => "The function must have opposite signs at the interval endpoints."
    case ZeroDerivative => "Derivative is zero, method cannot proceed."
  }

  function Abs(x: real): real {
    if x < 0.0 then -x else x
  }

  function Max(a: int, b: int): int {
    if a < b then b else a
  }
}
