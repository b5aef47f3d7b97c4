/** UTC days, ISO weekdays and the lower bound of a generation run. */
module Calendar {
  import opened Wrappers
  import opened Domain

  const SLOT_DURATION: Time := 30 * MINUTE

  // Midnight of the day of t.
  function TruncateToUTCDate(t: Time): (midnight: Time)
    ensures midnight <= t < midnight + DAY
    ensures midnight % DAY == 0
  {
    t - t % DAY
  }

  function CombineDateWithTimeOfDay(day: Time, offset: Time): Time {
    TruncateToUTCDate(day) + offset
  }

  // Sunday is 0. The epoch was a Thursday.
  function GoWeekday(t: Time): (w: int)
    ensures 0 <= w < 7
  {
    (t / DAY + 4) % 7
  }

  function DbWeekdayFromGo(w: int): int {
    if w == 0 then 7 else w
  }

  predicate WeekdayMatches(day: Time, dayOfWeek: int) {
    DbWeekdayFromGo(GoWeekday(day)) == dayOfWeek
  }

  // The numbering of ISO 8601:2004 section 4.1.4: Monday is 1, Sunday is 7, and every day is followed by the next.
  lemma WeekdayIsIso(t: Time)
    ensures WeekdayMatches(t, (t / DAY + 3) % 7 + 1)
    ensures forall d :: WeekdayMatches(t, d) ==> 1 <= d <= 7 && WeekdayMatches(t + DAY, d % 7 + 1)
    ensures WeekdayMatches(0, 4)
  {
    assert (t + DAY) / DAY == t / DAY + 1;
  }

  function ComputeLowerBound(now: Time, last: Option<Time>): (lower: Time)
    ensures now <= lower
    ensures last.Some? ==> last.value + SLOT_DURATION <= lower
    ensures lower == now || (last.Some? && lower == last.value + SLOT_DURATION)
  {
    match last
    case None => now
    case Some(t) => if now > t + SLOT_DURATION then now else t + SLOT_DURATION
  }
}
