/** The floating-point primitives the synthesis calls, as uninterpreted
    real functions. Nothing is assumed of them beyond what a contract states
    in a `requires`. */
module Numerics {
  /** `sqrt`, `sin` and `cos` from `<cmath>`, and the constant `M_PI`. */
  datatype Elementary = Elementary(sqrt: real -> real, sin: real -> real, cos: real -> real, pi: real)
  {
    /** The square root of a positive number is positive (so 1/sqrt is defined). */
    ghost predicate SqrtPositive() {
      forall x: real :: 0.0 < x ==> 0.0 < sqrt(x)
    }

    /** The addition formulas of sine and cosine. The angle is written
        `Sum(x, y)` so that the formula applies only where a proof names it. */
    ghost predicate AdditionFormulas() {
      forall x: real, y: real {:trigger sin(Sum(x, y))} {:trigger cos(Sum(x, y))} ::
        sin(Sum(x, y)) == sin(x) * cos(y) + cos(x) * sin(y) &&
        cos(Sum(x, y)) == cos(x) * cos(y) - sin(x) * sin(y)
    }

    /** sin^2 x + cos^2 x, as a named term. */
    function Norm(x: real): real {
      sin(x) * sin(x) + cos(x) * cos(x)
    }

    /** sin^2 + cos^2 = 1, applied only where a proof names `Norm(x)`. */
    ghost predicate Pythagorean() {
      forall x: real :: Norm(x) == 1.0
    }
  }

  /** x + y, as a named term. */
  function Sum(x: real, y: real): real {
    x + y
  }

  /** `sqrt(n)` for a whole number `n`, as the constructor evaluates it. */
  function Root(e: Elementary, n: int): (r: real)
    ensures e.SqrtPositive() && 0 < n ==> 0.0 < r
  {
    e.sqrt(n as real)
  }
}
