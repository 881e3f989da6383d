/** Real numbers, and times in seconds. */
module Reals {
  type Time = real

  function Min(a: real, b: real): real {
    if a < b then a else b
  }

  function Max(a: real, b: real): real {
    if a > b then a else b
  }
}
