/**
 * Calendar arithmetic on integer timestamps (seconds). The day boundary is
 * taken at a fixed offset (UTC); the platform's time zones are not modelled.
 */
module Calendar {
  const SecondsPerDay: int := 86400

  /** The first instant of the day containing `t`. */
  function StartOfDay(t: int): int
  {
    t - t % SecondsPerDay
  }

  /** `date` falls on the same day as `now`. */
  predicate IsDateInToday(date: int, now: int)
  {
    StartOfDay(date) == StartOfDay(now)
  }

  lemma StartOfDayBounds(t: int)
    ensures StartOfDay(t) <= t < StartOfDay(t) + SecondsPerDay
    ensures StartOfDay(t) % SecondsPerDay == 0
  {
  }

  lemma StartOfDayIdempotent(t: int)
    ensures StartOfDay(StartOfDay(t)) == StartOfDay(t)
  {
    StartOfDayBounds(t);
  }

  lemma StartOfDayMonotone(a: int, b: int)
    requires a <= b
    ensures StartOfDay(a) <= StartOfDay(b)
  {
    StartOfDayBounds(a);
    StartOfDayBounds(b);
  }
}
