/** Numeric helpers shared by movement, ray casting and projection. */
module Numeric {

  /** A plane vector; used for the unit direction (sin a, cos a) of an angle a,
      which the model takes as an input instead of computing it. */
  datatype Vec = Vec(x: real, y: real)

  /** Truncation toward zero: the meaning of a C++ `(int)` cast applied to a
      float. For negative inputs this is the ceiling, not the floor. */
  function Trunc(r: real): (n: int)
    ensures 0.0 <= r ==> 0 <= n && n as real <= r < n as real + 1.0
    ensures r < 0.0 ==> n <= 0 && n as real - 1.0 < r <= n as real
  {
    if r >= 0.0 then r.Floor else -((-r).Floor)
  }

  /** Truncation never decreases when its argument grows. */
  lemma TruncMonotone(a: real, b: real)
    requires a <= b
    ensures Trunc(a) <= Trunc(b)
  {
  }

  /** A truncated coordinate lies in [0, n) exactly when the real coordinate
      lies in the open interval (-1, n): the strip (-1, 0) truncates to 0. */
  lemma TruncInRange(r: real, n: int)
    requires 1 <= n
    ensures 0 <= Trunc(r) < n <==> -1.0 < r < n as real
  {
  }
}
