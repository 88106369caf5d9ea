/**
 * Instants are whole seconds on one integer time line. The current instant is
 * always passed in explicitly (the injectable clock), never read from a global.
 */
module Time {

  const Second: int := 1
  const Minute: int := 60 * Second
  const Hour: int := 60 * Minute
  const Day: int := 24 * Hour

  /** A span of `days` whole days, negative for spans into the past. */
  function Days(days: int): (span: int)
    ensures span % Day == 0 && span / Day == days
    ensures span < 0 <==> days < 0
    ensures span > 0 <==> days > 0
  {
    days * Day
  }

  /** One day's span is one `Day`, and spans of days add up. */
  lemma DaysAdd(a: int, b: int)
    ensures Days(1) == Day
    ensures Days(a) + Days(b) == Days(a + b)
  {}

  /** The instant `days` whole days away from `now`: the offset the test helper applies. */
  function Offset(now: int, days: int): (t: int)
    ensures (t - now) % Day == 0 && (t - now) / Day == days
    ensures t < now <==> days < 0
    ensures t > now <==> days > 0
    ensures t == now <==> days == 0
  {
    now + Days(days)
  }

  /** Offsets keep the order of their day counts: fewer days ago means a later instant. */
  lemma OffsetOrder(now: int, a: int, b: int)
    ensures Offset(now, a) < Offset(now, b) <==> a < b
  {}
}
