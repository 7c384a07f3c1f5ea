/**
 * The Date collaborator (date.h): a point in time or the "empty" sentinel that
 * SetToEmptyTime installs.  The clock itself is not modelled: every operation
 * that calls SetToNow receives the current time as a parameter.
 */
module Dates {
  datatype Date = EmptyTime | At(seconds: int)

  /** What SetToNow stores, given the clock reading `now`. */
  function Now(now: int): Date { At(now) }
}
