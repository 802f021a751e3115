/** The greater, the lesser, and a value held within a limit. */
module Reals {
  function Max(a: real, b: real): real {
    if a >= b then a else b
  }

  function Min(a: real, b: real): real {
    if a <= b then a else b
  }

  function Clamp(value: real, limit: real): real {
    Max(-limit, Min(limit, value))
  }

  lemma ClampWithin(value: real, limit: real)
    requires limit >= 0.0
    ensures -limit <= Clamp(value, limit) <= limit
    ensures Clamp(value, limit) == value <==> -limit <= value <= limit
  {
  }
}
