/** The floating-point functions the scorers call, kept uninterpreted: a
    scorer receives them as arguments, and all that is known of them is
    their sign. */
module Numerics {

  /** `math.sqrt`, known only to be positive on positive arguments. */
  type SqrtFn = f: real -> real | forall x: real :: 0.0 < x ==> 0.0 < f(x)
    witness (x: real) => x

  /** `math.log` on counts, known only to be 0 at 1 and positive above 1. */
  type LogFn = f: nat -> real | f(1) == 0.0 && forall n: nat :: 1 < n ==> 0.0 < f(n)
    witness (n: nat) => if n <= 1 then 0.0 else 1.0
}
