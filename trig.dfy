// Trigonometry enters the model as a parameter: the functions are supplied by the
// caller, and only the few facts a proof needs are assumed of them through `Valid`.
module TrigLib {

  /**
   * The numeric library, with every angle in degrees: `sin(x)` is the sine of x degrees
   * and the inverse functions return degrees, so the source's radians/degrees
   * conversions are folded into the functions; `pi` is numpy's value of the constant.
   */
  datatype Trig = Trig(
    sin: real -> real,
    cos: real -> real,
    tan: real -> real,
    asin: real -> real,
    acos: real -> real,
    atan: real -> real,
    atan2: (real, real) -> real,
    sqrt: real -> real,
    pi: real)

  /** The facts the proofs rely on: the sine is positive strictly between the poles,
      and the arc cosine lies in [0, 180]. */
  ghost predicate Valid(t: Trig)
  {
    (forall x :: 0.0 < x < 180.0 ==> t.sin(x) > 0.0) &&
    (forall x :: 0.0 <= t.acos(x) <= 180.0)
  }

  /** Floating-point division where a zero divisor stands for an infinite quotient. */
  function Div(a: real, b: real): (q: real)
    ensures b != 0.0 ==> q * b == a
  {
    if b == 0.0 then 0.0 else a / b
  }

  /** numpy's `degrees(arctan(1 / x))`, which is 90 when x is 0 (1/0 is +inf). */
  function AtanRecip(t: Trig, x: real): real
  {
    if x == 0.0 then 90.0 else t.atan(1.0 / x)
  }

  /** numpy.sign with 0 mapped to 1, as `recmat` uses it. */
  function Sign(x: real): (s: real)
    ensures s == 1.0 || s == -1.0
    ensures s == 1.0 <==> x >= 0.0
  {
    if x < 0.0 then -1.0 else 1.0
  }
}
