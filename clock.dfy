/**
 * Wall-clock arithmetic of the scheduling core. An instant is a count of
 * seconds on the local wall clock (the fixed scheduling zone already
 * applied); a day starts at every multiple of 86400 seconds. A schedule
 * stores a daily time as text such as "14:30" or "19:00:00".
 */
module Clock {
  import opened Wrappers
  import opened Text

  const SecondsPerMinute: int := 60
  const SecondsPerDay: int := 86400

  /** Midnight at the start of the day that contains `now`. */
  function DayStart(now: int): (r: int)
    ensures r <= now < r + SecondsPerDay
    ensures r % SecondsPerDay == 0
  {
    now - now % SecondsPerDay
  }

  datatype ClockTime = ClockTime(hour: int, minute: int)

  predicate ValidClock(t: ClockTime)
  {
    0 <= t.hour <= 23 && 0 <= t.minute <= 59
  }

  /** Seconds from midnight to the clock time. */
  function Offset(t: ClockTime): (r: int)
    requires ValidClock(t)
    ensures 0 <= r < SecondsPerDay
  {
    t.hour * 3600 + t.minute * SecondsPerMinute
  }

  /**
   * How a stored schedule time is read back: split on ':', take `int()` of
   * the first two fields (later fields such as seconds are ignored), and
   * build a time of day, which fails unless 0 <= hour <= 23 and
   * 0 <= minute <= 59. Fewer than two fields fails as well.
   */
  function ParseClock(s: string): (r: Option<ClockTime>)
    ensures r.Some? ==> ValidClock(r.value)
  {
    var parts := Split(s, ':');
    if |parts| < 2 then None
    else
      match (ParseInt(parts[0]), ParseInt(parts[1]))
      case (Some(h), Some(m)) => if ValidClock(ClockTime(h, m)) then Some(ClockTime(h, m)) else None
      case _ => None
  }

  /** The clock time on the day of `now`, seconds set to zero. */
  function TodayAt(now: int, t: ClockTime): int
    requires ValidClock(t)
  {
    DayStart(now) + Offset(t)
  }

  /**
   * The next occurrence of a daily time: today at that time, unless `now`
   * has reached it, in which case the same time tomorrow.
   */
  function NextOccurrence(now: int, t: ClockTime): (r: int)
    requires ValidClock(t)
    ensures now < r <= now + SecondsPerDay
    ensures r % SecondsPerDay == Offset(t)
    ensures r == TodayAt(now, t) <==> now < TodayAt(now, t)
    ensures r == TodayAt(now, t) || r == TodayAt(now, t) + SecondsPerDay
  {
    var today := TodayAt(now, t);
    DayPlusOffset(DayStart(now), Offset(t));
    if now >= today then today + SecondsPerDay else today
  }

  /** A time of day added to a midnight, or to the following midnight, leaves that time of day as the remainder. */
  lemma DayPlusOffset(day: int, off: int)
    requires day % SecondsPerDay == 0 && 0 <= off < SecondsPerDay
    ensures (day + off) % SecondsPerDay == off
    ensures (day + off + SecondsPerDay) % SecondsPerDay == off
  {
    var q := day / SecondsPerDay;
    assert day == q * SecondsPerDay;
    assert day + off == q * SecondsPerDay + off;
    assert day + off + SecondsPerDay == (q + 1) * SecondsPerDay + off;
  }

  /** Any instant later than `now`, at most a day ahead, that falls on the clock time is the next occurrence. */
  lemma NextOccurrenceUnique(now: int, t: ClockTime, x: int)
    requires ValidClock(t)
    requires now < x <= now + SecondsPerDay && x % SecondsPerDay == Offset(t)
    ensures x == NextOccurrence(now, t)
  {
    var r := NextOccurrence(now, t);
    SameTimeOfDayApart(x, r);
    SameTimeOfDayApart(r, x);
  }

  /** Two instants at the same time of day are a whole number of days apart, so at least a day when they differ. */
  lemma SameTimeOfDayApart(x1: int, x2: int)
    ensures x1 % SecondsPerDay == x2 % SecondsPerDay && x1 < x2 ==> x2 - x1 >= SecondsPerDay
  {
    var q1, q2 := x1 / SecondsPerDay, x2 / SecondsPerDay;
    assert x1 == q1 * SecondsPerDay + x1 % SecondsPerDay;
    assert x2 == q2 * SecondsPerDay + x2 % SecondsPerDay;
    if x1 % SecondsPerDay == x2 % SecondsPerDay && x1 < x2 {
      assert x2 - x1 == (q2 - q1) * SecondsPerDay;
    }
  }

  /** The dashboard's window: the next occurrence lies within 30 minutes either side of now. */
  predicate IsDue(next: int, now: int)
  {
    -30 * SecondsPerMinute <= next - now <= 30 * SecondsPerMinute
  }

  /** The reminder job's window: between 29 and 31 minutes before the session, inclusive. */
  predicate InReminderWindow(next: int, now: int)
  {
    29 * SecondsPerMinute <= next - now <= 31 * SecondsPerMinute
  }

  /** The status page's wider window: between 25 and 35 minutes before the session, inclusive. */
  predicate InStatusWindow(next: int, now: int)
  {
    25 * SecondsPerMinute <= next - now <= 35 * SecondsPerMinute
  }

  /** A reminder-window hit is always a status-window hit, but the status window reaches further on both sides. */
  lemma ReminderWindowInsideStatusWindow(next: int, now: int)
    ensures InReminderWindow(next, now) ==> InStatusWindow(next, now)
    ensures InStatusWindow(now + 25 * SecondsPerMinute, now) && !InReminderWindow(now + 25 * SecondsPerMinute, now)
    ensures InStatusWindow(now + 35 * SecondsPerMinute, now) && !InReminderWindow(now + 35 * SecondsPerMinute, now)
  {
  }

  /** The dashboard and reminder windows are independent: 31 minutes ahead reminds but is not due; 10 minutes ahead is due but does not remind. */
  lemma DueAndReminderWindowsDiffer(now: int)
    ensures InReminderWindow(now + 31 * SecondsPerMinute, now) && !IsDue(now + 31 * SecondsPerMinute, now)
    ensures IsDue(now + 10 * SecondsPerMinute, now) && !InReminderWindow(now + 10 * SecondsPerMinute, now)
    ensures InReminderWindow(now + 30 * SecondsPerMinute, now) && IsDue(now + 30 * SecondsPerMinute, now)
  {
  }
}
