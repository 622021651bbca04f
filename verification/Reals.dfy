/** Real-number helpers of the standard library. */
module Reals {
  /** `f64::EPSILON`: 2 to the power -52. */
  const EPSILON: real := 1.0 / 4503599627370496.0

  function Abs(r: real): real { if r < 0.0 then -r else r }

  function Max(p: real, q: real): real { if p < q then q else p }
}
