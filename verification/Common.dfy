/** Small value types and arithmetic shared by the other modules. */
module Common {

  datatype Option<+T> = None | Some(value: T)

  datatype Result<+T, +E> = Ok(value: T) | Err(error: E)

  function Min(a: real, b: real): real {
    if a <= b then a else b
  }

  function Max(a: real, b: real): real {
    if a >= b then a else b
  }

  function IntMin(a: int, b: int): int {
    if a <= b then a else b
  }

  function IntMax(a: int, b: int): int {
    if a >= b then a else b
  }

  function Abs(a: real): real {
    if a >= 0.0 then a else -a
  }

  /** Python's `round` and `Decimal.to_integral_value`: the nearest integer, a tie going to the even one. */
  function RoundHalfEven(x: real): (r: int)
    ensures -0.5 <= x - r as real <= 0.5
    ensures (x - r as real == 0.5 || x - r as real == -0.5) ==> r % 2 == 0
  {
    var low := x.Floor;
    var part := x - low as real;
    if part < 0.5 || (part == 0.5 && low % 2 == 0) then low else low + 1
  }

  /** The two bounds of `RoundHalfEven` single out one integer. */
  lemma RoundHalfEvenIsUnique(x: real, n: int)
    requires -0.5 <= x - n as real <= 0.5
    requires (x - n as real == 0.5 || x - n as real == -0.5) ==> n % 2 == 0
    ensures RoundHalfEven(x) == n
  {
  }

  function Sum(xs: seq<real>): real {
    if xs == [] then 0.0 else Sum(xs[..|xs| - 1]) + xs[|xs| - 1]
  }

  /** The products are passed by name so that callers reason about them linearly. */
  lemma MulMonotone(a: real, b: real, k: real, ak: real, bk: real)
    requires a <= b && 0.0 <= k && ak == a * k && bk == b * k
    ensures ak <= bk
  {
  }

  lemma DivMonotone(a: real, b: real, k: real)
    requires a <= b && 0.0 < k
    ensures a / k <= b / k
  {
  }
}
