/** Quiet hours of `server/fleet-scope-reg-messaging.ts`: when a message may not go out now, the next
    instant at which it may. Instants are milliseconds; a zone is its offset from UTC, constant over the
    window; a local date is its day number. */
module QuietHours {
  import opened Text

  const HOUR := 3_600_000
  const DAY := 24 * HOUR
  const MINUTE := 60_000

  const QUIET_START := 21
  const QUIET_END := 7

  /** What `Intl.DateTimeFormat` renders: the wall clock at an instant, to the minute. */
  datatype LocalTime = LocalTime(day: int, hour: int, minute: int)

  function LocalDay(offset: int, t: int): int { (t + offset) / DAY }

  /** Milliseconds since local midnight. */
  function TimeOfDay(offset: int, t: int): int { (t + offset) % DAY }

  function LocalHour(offset: int, t: int): int { TimeOfDay(offset, t) / HOUR }

  function LocalTimeAt(offset: int, t: int): LocalTime {
    LocalTime(LocalDay(offset, t), LocalHour(offset, t), TimeOfDay(offset, t) % HOUR / MINUTE)
  }

  lemma OnDay(offset: int, t: int, day: int)
    requires day * DAY <= t + offset < (day + 1) * DAY
    ensures LocalDay(offset, t) == day && TimeOfDay(offset, t) == t + offset - day * DAY
  {
  }

  /** Messages may go out from 07:00 until just before 21:00 local. */
  predicate Allowed(offset: int, t: int) { QUIET_END * HOUR <= TimeOfDay(offset, t) < QUIET_START * HOUR }

  /** The first allowed instant after `now`. */
  ghost predicate IsNextAllowed(offset: int, now: int, t: int) {
    now < t && Allowed(offset, t) && forall u :: now <= u < t ==> !Allowed(offset, u)
  }

  /** The instant at which the wall clock shows `hour`:00 on day `day`. */
  function WallClock(offset: int, day: int, hour: int): int { day * DAY + hour * HOUR - offset }

  /** Whole hours from twelve behind UTC to eleven ahead. */
  predicate Supported(offset: int) { offset % HOUR == 0 && -12 * HOUR <= offset <= 11 * HOUR }

  /** For every offset: the wanted hour of the wanted day, off by a whole number of days for zones beyond
      twelve hours behind or eleven ahead, and by the odd minutes of a zone that has any. So it is right
      exactly for the supported offsets. */
  method LocalHourToUtc(offset: int, day: int, hour: int) returns (t: int)
    requires 0 <= hour < 24
    ensures t == WallClock(offset, day, hour) <==> Supported(offset)
    ensures TimeOfDay(offset, t) == hour * HOUR + offset % HOUR
    ensures t == WallClock(offset, day + (offset / HOUR + 12) / 24, hour) + offset % HOUR
  {
    var candidate := day * DAY + hour * HOUR;
    var localHourAtCandidate := LocalHour(offset, candidate);
    var diffHours := hour - localHourAtCandidate;
    if diffHours > 12 {
      diffHours := diffHours - 24;
    }
    if diffHours <= -12 {
      diffHours := diffHours + 24;
    }
    t := candidate + diffHours * HOUR;
    ghost var wraps := CandidateHour(offset, day, hour);
    RefinedHour(offset, day, hour, diffHours, wraps + (diffHours - (hour - localHourAtCandidate)) / 24);
  }

  /** Where the first guess, the wanted hour read as UTC, really falls in the zone. */
  lemma CandidateHour(offset: int, day: int, hour: int) returns (wraps: int)
    requires 0 <= hour < 24
    ensures var h := LocalHour(offset, day * DAY + hour * HOUR);
            0 <= h < 24 && h == hour + offset / HOUR - 24 * wraps
  {
    var shifted := hour + offset / HOUR;
    wraps := shifted / 24;
    var t := day * DAY + hour * HOUR;
    assert t + offset == (day + wraps) * DAY + (shifted - 24 * wraps) * HOUR + offset % HOUR;
    OnDay(offset, t, day + wraps);
  }

  /** One correction by at most twelve hours lands on the wanted hour, on the wanted day or days off. */
  lemma RefinedHour(offset: int, day: int, hour: int, diffHours: int, days: int)
    requires 0 <= hour < 24 && -12 < diffHours <= 12 && diffHours + offset / HOUR == 24 * days
    ensures var t := day * DAY + hour * HOUR + diffHours * HOUR;
            && (t == WallClock(offset, day, hour) <==> Supported(offset))
            && TimeOfDay(offset, t) == hour * HOUR + offset % HOUR
            && t == WallClock(offset, day + (offset / HOUR + 12) / 24, hour) + offset % HOUR
  {
    assert (offset / HOUR + 12) / 24 == days;
    var t := day * DAY + hour * HOUR + diffHours * HOUR;
    assert t + offset == (day + days) * DAY + hour * HOUR + offset % HOUR;
    OnDay(offset, t, day + days);
    assert t == WallClock(offset, day, hour) <==> days == 0 && offset % HOUR == 0;
  }

  /** From a quiet instant the next allowed one is 07:00: the next day's after 21:00, else the same day's. */
  function NextMorning(offset: int, now: int): int {
    WallClock(offset, LocalDay(offset, now) + if TimeOfDay(offset, now) >= QUIET_START * HOUR then 1 else 0, QUIET_END)
  }

  lemma MorningIsNext(offset: int, now: int)
    requires !Allowed(offset, now)
    ensures IsNextAllowed(offset, now, NextMorning(offset, now))
    ensures NextMorning(offset, now) <= now + 10 * HOUR
  {
    var day, morning := LocalDay(offset, now), NextMorning(offset, now);
    OnDay(offset, now, day);
    var target := (morning + offset - QUIET_END * HOUR) / DAY;
    OnDay(offset, morning, target);
    forall u | now <= u < morning
      ensures !Allowed(offset, u)
    {
      OnDay(offset, u, if u + offset < (day + 1) * DAY then day else day + 1);
    }
  }

  lemma NextIsUnique(offset: int, now: int, t: int, u: int)
    requires IsNextAllowed(offset, now, t) && IsNextAllowed(offset, now, u)
    ensures t == u
  {
  }

  /** Null exactly when a message may go out now, in every zone. Otherwise the answer is the least allowed
      instant exactly in the supported zones, where it is 07:00 local and at most ten hours away. */
  method GetNextAllowedSendTime(offset: int, now: int) returns (next: Option<int>)
    ensures next.None? <==> 7 * 3_600_000 <= (now + offset) % 86_400_000 < 21 * 3_600_000
    ensures next.Some? ==> (IsNextAllowed(offset, now, next.value) <==> Supported(offset))
    ensures next.Some? && Supported(offset) ==>
              LocalTimeAt(offset, next.value) == LocalTime(LocalDay(offset, next.value), 7, 0)
              && next.value <= now + 10 * HOUR
  {
    var local := LocalTimeAt(offset, now);
    var localMinutes := local.hour * 60 + local.minute;
    var inQuietHours := localMinutes >= QUIET_START * 60 || localMinutes < QUIET_END * 60;
    MinutesSuffice(offset, now, QUIET_START * 60);
    MinutesSuffice(offset, now, QUIET_END * 60);
    if !inQuietHours {
      return None;
    }
    var targetDay := local.day;
    if localMinutes >= QUIET_START * 60 {
      var tomorrow := now + DAY;
      targetDay := LocalTimeAt(offset, tomorrow).day;
      assert targetDay == local.day + 1;
    }
    var t := LocalHourToUtc(offset, targetDay, QUIET_END);
    next := Some(t);
    MorningIsNext(offset, now);
    assert NextMorning(offset, now) == WallClock(offset, targetDay, QUIET_END);
    if IsNextAllowed(offset, now, t) {
      NextIsUnique(offset, now, t, NextMorning(offset, now));
    }
  }

  /** The wall clock to the minute tells what whole minute of the day has passed. */
  lemma MinutesSuffice(offset: int, now: int, minutes: int)
    ensures var local := LocalTimeAt(offset, now);
            local.hour * 60 + local.minute >= minutes <==> TimeOfDay(offset, now) >= minutes * MINUTE
  {
  }
}
