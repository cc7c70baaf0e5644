/**
  Differences of timestamps. A timestamp is a whole number of seconds; a
  difference of two of them is a pandas Timedelta, read either as
  `.dt.total_seconds() / (24 * 3600)` (fractional days, exact here as a
  `real`) or as `.dt.days` (whole days, rounded towards minus infinity).
*/
module Durations {

  /** `24 * 3600` */
  const SecondsPerDay: int := 86400

  /** `delta.total_seconds() / (24 * 3600)`: positive exactly for a positive delta, zero only for zero. */
  function Days(seconds: int): (d: real)
    ensures d > 0.0 <==> seconds > 0
    ensures d == 0.0 <==> seconds == 0
  {
    seconds as real / 86400.0
  }

  /** A day count scaled back by the length of a day gives the seconds again, so no precision is lost. */
  lemma DaysScaleBack(seconds: int)
    ensures Days(seconds) * SecondsPerDay as real == seconds as real
  {
  }

  /** `delta.days`: the largest whole number of days not exceeding the delta. */
  function WholeDays(seconds: int): (d: int)
    ensures d * SecondsPerDay <= seconds < (d + 1) * SecondsPerDay
  {
    seconds / 86400
  }
}
