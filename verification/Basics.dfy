/** Workers' names and times, shared by the models. */
module Basics {

  type WorkerId = string

  /** Microseconds. */
  type Time = int

  function Minutes(n: int): Time {
    n * 60_000_000
  }
}
