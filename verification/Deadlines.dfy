/** Deadlines with a zero that means "never", and minima of them. */
module Deadlines {

  type Time = int

  function Earlier(a: Time, b: Time): (r: Time)
    ensures NotLater(r, a) && NotLater(r, b)
    ensures r == a || r == b
    ensures r == 0 <==> a == 0 && b == 0
  {
    if a == 0 || (b != 0 && b < a) then b else a
  }

  /** `a` is due no later than `b`, zero being never. */
  predicate NotLater(a: Time, b: Time) {
    b == 0 || (a != 0 && a <= b)
  }
}
