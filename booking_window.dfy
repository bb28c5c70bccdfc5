/** The weekly booking window. Booking for the Monday..Sunday week opens on
    the Friday before it at 08:00 (engineers only until 08:30) and closes on
    that week's Thursday at 17:00. Everything is computed from the server's
    local clock, passed in as `now`. */
module BookingWindowService {
  import opened Calendar

  const EngineerOpen: TimeOfDay := 8 * SecondsPerHour
  const GeneralOpen: TimeOfDay := 8 * SecondsPerHour + 30 * SecondsPerMinute
  const CloseTime: TimeOfDay := 17 * SecondsPerHour

  /** The week in force at some instant, and its window. */
  datatype BookingWeek = BookingWeek(
    monday: Day,
    sunday: Day,
    openFriday: Day,
    windowOpenLocal: Instant,
    windowCloseLocal: Instant)

  lemma DayOfWeekAdd(d: Day, k: int)
    ensures DayOfWeek(d + k) == (DayOfWeek(d) + k) % 7
  {
    var q := (d + 1) / 7;
    var r := (d + 1) % 7;
    assert d + 1 == 7 * q + r;
    assert d + k + 1 == 7 * q + (r + k);
  }

  /** Two Fridays are a whole number of weeks apart. */
  lemma FridaysCongruent(f: Day, g: Day)
    requires DayOfWeek(f) == Friday && DayOfWeek(g) == Friday
    ensures (f - g) % 7 == 0
  {
    DayOfWeekAdd(g, f - g);
  }

  /** The Friday whose window governs `now`: the most recent Friday, except
      that before 08:00 on a Friday it is the Friday a week earlier. */
  function EffectiveOpenFriday(now: Instant): (f: Day)
    ensures DayOfWeek(f) == Friday
    ensures At(f, EngineerOpen) <= now < At(f + 7, EngineerOpen)
    ensures if DayOfWeek(DateOf(now)) == Friday && TimeOf(now) < EngineerOpen
            then DateOf(now) - f == 7
            else 0 <= DateOf(now) - f <= 6
  {
    var today := DateOf(now);
    var dow := DayOfWeek(today);
    var daysSinceFriday := (dow - Friday + 7) % 7;
    var lastFriday := today - daysSinceFriday;
    var f := if today == lastFriday && TimeOf(now) < EngineerOpen then lastFriday - 7 else lastFriday;
    OpenFridayFacts(now, daysSinceFriday, f);
    f
  }

  lemma OpenFridayFacts(now: Instant, k: int, f: Day)
    requires k == (DayOfWeek(DateOf(now)) - Friday + 7) % 7
    requires f == if k == 0 && TimeOf(now) < EngineerOpen then DateOf(now) - 7 else DateOf(now) - k
    ensures DayOfWeek(f) == Friday
    ensures At(f, EngineerOpen) <= now < At(f + 7, EngineerOpen)
    ensures if DayOfWeek(DateOf(now)) == Friday && TimeOf(now) < EngineerOpen
            then DateOf(now) - f == 7
            else 0 <= DateOf(now) - f <= 6
  {
    var today := DateOf(now);
    var tod := TimeOf(now);
    DateTimeParts(now);
    assert now == today * SecondsPerDay + tod;
    assert 0 <= k <= 6;
    assert k == 0 <==> DayOfWeek(today) == Friday;
    DayOfWeekAdd(today, -k);
    DayOfWeekAdd(today, -k - 7);
    assert DayOfWeek(today - k) == Friday;
  }

  /** Exactly one Friday has its 08:00 opening in the seven days up to `now`. */
  lemma OpenFridayUnique(now: Instant, g: Day)
    requires DayOfWeek(g) == Friday
    requires At(g, EngineerOpen) <= now < At(g + 7, EngineerOpen)
    ensures g == EffectiveOpenFriday(now)
  {
    var f := EffectiveOpenFriday(now);
    FridaysCongruent(f, g);
  }

  function GetCurrentWeek(now: Instant): (w: BookingWeek)
    ensures w.openFriday == EffectiveOpenFriday(now)
    ensures DayOfWeek(w.monday) == Monday && w.monday == w.openFriday + 3
    ensures w.sunday == w.monday + 6
    ensures w.windowOpenLocal == At(w.openFriday, EngineerOpen)
    ensures DayOfWeek(w.monday + 3) == Thursday && w.windowCloseLocal == At(w.monday + 3, CloseTime)
    ensures w.windowOpenLocal <= now < w.windowOpenLocal + 7 * SecondsPerDay
  {
    var openFriday := EffectiveOpenFriday(now);
    var monday := openFriday + 3;
    var sunday := monday + 6;
    var thursday := monday + 3;
    DayOfWeekAdd(openFriday, 3);
    DayOfWeekAdd(openFriday, 6);
    BookingWeek(monday, sunday, openFriday, At(openFriday, EngineerOpen), At(thursday, CloseTime))
  }

  /** The window is closed exactly from Thursday 17:00 to Friday 08:00. */
  function IsWindowOpen(now: Instant): (r: bool)
    ensures r <==>
      !(DayOfWeek(DateOf(now)) == Thursday && TimeOf(now) >= CloseTime) &&
      !(DayOfWeek(DateOf(now)) == Friday && TimeOf(now) < EngineerOpen)
  {
    WindowSpanByWeekday(now);
    var w := GetCurrentWeek(now);
    now >= w.windowOpenLocal && now < w.windowCloseLocal
  }

  function CanUserBookNow(now: Instant, isEngineer: bool): (r: bool)
    ensures r ==> IsWindowOpen(now)
    ensures isEngineer ==> (r <==> IsWindowOpen(now))
    ensures !isEngineer ==>
      (r <==> IsWindowOpen(now) &&
              !(DayOfWeek(DateOf(now)) == Friday && EngineerOpen <= TimeOf(now) < GeneralOpen))
  {
    var w := GetCurrentWeek(now);
    if now < w.windowOpenLocal || now >= w.windowCloseLocal then false
    else if DateOf(now) == w.openFriday && TimeOf(now) >= EngineerOpen && TimeOf(now) < GeneralOpen then
      isEngineer
    else true
  }

  /** Between the week's opening and its close lies everything but Thursday
      17:00 to Friday 08:00. */
  lemma {:induction false} WindowSpanByWeekday(now: Instant)
    ensures GetCurrentWeek(now).windowOpenLocal <= now < GetCurrentWeek(now).windowCloseLocal <==>
      !(DayOfWeek(DateOf(now)) == Thursday && TimeOf(now) >= CloseTime) &&
      !(DayOfWeek(DateOf(now)) == Friday && TimeOf(now) < EngineerOpen)
  {
    var w := GetCurrentWeek(now);
    var f := w.openFriday;
    var d := DateOf(now);
    var t := TimeOf(now);
    DateTimeParts(now);
    AtOrder(f, EngineerOpen, d, t);
    AtOrder(d, t, f + 7, EngineerOpen);
    AtOrder(d, t, f + 6, CloseTime);
    assert f <= d <= f + 7;
    DayOfWeekAdd(f, d - f);
    assert DayOfWeek(d) == (Friday + (d - f)) % 7;
  }

  /** Before 08:00 on a Friday the week in force is the one of the day before. */
  lemma {:induction false} FridayMorningRollsBack(now: Instant, thursdayTime: TimeOfDay)
    requires DayOfWeek(DateOf(now)) == Friday && TimeOf(now) < EngineerOpen
    ensures GetCurrentWeek(now) == GetCurrentWeek(At(DateOf(now) - 1, thursdayTime))
  {
    var today := DateOf(now);
    var f := today - 7;
    var thu := At(today - 1, thursdayTime);
    DateTimeParts(now);
    AtOrder(f, EngineerOpen, today - 1, thursdayTime);
    AtOrder(today - 1, thursdayTime, f + 7, EngineerOpen);
    OpenFridayUnique(thu, f);
  }

  /** ... and so is it a week earlier, one Friday back. */
  lemma {:induction false} FridayMorningWeekBefore(now: Instant)
    requires DayOfWeek(DateOf(now)) == Friday && TimeOf(now) < EngineerOpen
    ensures GetCurrentWeek(now - 7 * SecondsPerDay).openFriday == GetCurrentWeek(now).openFriday - 7
  {
    var today := DateOf(now);
    var earlier := now - 7 * SecondsPerDay;
    DateTimeParts(now);
    assert DateOf(earlier) == today - 7 && TimeOf(earlier) == TimeOf(now) by {
      AtParts(today - 7, TimeOf(now));
    }
    DayOfWeekAdd(today, -7);
    assert EffectiveOpenFriday(now) == today - 7;
    assert EffectiveOpenFriday(earlier) == today - 14;
  }

  /** Consecutive windows neither overlap nor leave a gap: the week in force at
      the next Friday 08:00 is the following one. */
  lemma {:induction false} NextWeekFollows(now: Instant)
    ensures GetCurrentWeek(GetCurrentWeek(now).windowOpenLocal + 7 * SecondsPerDay).openFriday
            == GetCurrentWeek(now).openFriday + 7
    ensures GetCurrentWeek(now).windowCloseLocal < GetCurrentWeek(now).windowOpenLocal + 7 * SecondsPerDay
  {
    var f := GetCurrentWeek(now).openFriday;
    var next := At(f, EngineerOpen) + 7 * SecondsPerDay;
    assert next == At(f + 7, EngineerOpen);
    DayOfWeekAdd(f, 7);
    OpenFridayUnique(next, f + 7);
  }

  /** In the first half hour after the window opens only engineers may book;
      everywhere else in the window everyone may. */
  lemma {:induction false} EngineerHalfHour(now: Instant)
    requires IsWindowOpen(now)
    ensures !CanUserBookNow(now, false) <==>
      GetCurrentWeek(now).windowOpenLocal <= now < GetCurrentWeek(now).windowOpenLocal + 30 * SecondsPerMinute
  {
    var w := GetCurrentWeek(now);
    DateTimeParts(now);
    AtOrder(w.openFriday, EngineerOpen, DateOf(now), TimeOf(now));
    AtOrder(DateOf(now), TimeOf(now), w.openFriday, GeneralOpen);
    assert At(w.openFriday, GeneralOpen) == w.windowOpenLocal + 30 * SecondsPerMinute;
    if DayOfWeek(DateOf(now)) == Friday {
      DayOfWeekAdd(w.openFriday, DateOf(now) - w.openFriday);
    }
  }
}
