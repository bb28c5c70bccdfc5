/** The asymmetric cancellation rule: an appointment of the week in force may
    be cancelled until that week's window closes (Thursday 17:00); any other
    appointment until two hours before it starts. */
module CancelPolicy {
  import opened Calendar
  import opened Entities
  import opened BookingWindowService

  const LeadTime: int := 2 * SecondsPerHour

  /** What WhyNot reports: the branch taken and the deadline it quotes. */
  datatype CancelDenial =
    | ActiveWeekDeadline(close: Instant)
    | LeadTimeDeadline(deadline: Instant)

  /** Monday..Sunday of the week, both ends included. */
  predicate InActiveWeek(date: Day, week: BookingWeek) {
    date >= week.monday && date <= week.sunday
  }

  /** The appointment's start, rebuilt from its hour and minute; the seconds are dropped. */
  function StartInstant(appt: Appointment): (r: Instant)
    ensures DateOf(r) == appt.date
    ensures TimeOf(r) <= appt.startTime < TimeOf(r) + SecondsPerMinute && TimeOf(r) % SecondsPerMinute == 0
  {
    var t := (appt.startTime / SecondsPerMinute) * SecondsPerMinute;
    AtParts(appt.date, t);
    At(appt.date, t)
  }

  function CanCancel(now: Instant, appt: Appointment, week: BookingWeek): (r: bool)
    ensures InActiveWeek(appt.date, week) ==> (r <==> now < week.windowCloseLocal)
    ensures !InActiveWeek(appt.date, week) ==> (r <==> now <= StartInstant(appt) - LeadTime)
  {
    var isInActiveWeek := appt.date >= week.monday && appt.date <= week.sunday;
    if isInActiveWeek then now < week.windowCloseLocal
    else
      var apptLocal := StartInstant(appt);
      now <= apptLocal - LeadTime
  }

  function WhyNot(now: Instant, appt: Appointment, week: BookingWeek): (r: CancelDenial)
    ensures r.ActiveWeekDeadline? <==> InActiveWeek(appt.date, week)
  {
    var isInActiveWeek := appt.date >= week.monday && appt.date <= week.sunday;
    if isInActiveWeek then ActiveWeekDeadline(week.windowCloseLocal)
    else LeadTimeDeadline(StartInstant(appt) - LeadTime)
  }

  /** WhyNot takes CanCancel's branch and quotes the instant at which CanCancel
      stops holding: strictly before the close, or up to and including start - 2h. */
  lemma WhyNotQuotesTheDeadline(now: Instant, appt: Appointment, week: BookingWeek)
    ensures match WhyNot(now, appt, week)
      case ActiveWeekDeadline(c) =>
        c == week.windowCloseLocal && forall n :: CanCancel(n, appt, week) <==> n < c
      case LeadTimeDeadline(d) =>
        d == StartInstant(appt) - LeadTime && forall n :: CanCancel(n, appt, week) <==> n <= d
  {
  }

  /** The message does not depend on the current time. */
  lemma WhyNotIgnoresNow(n1: Instant, n2: Instant, appt: Appointment, week: BookingWeek)
    ensures WhyNot(n1, appt, week) == WhyNot(n2, appt, week)
  {
  }

  /** Once cancelling is refused it stays refused. */
  lemma CanCancelMonotone(n1: Instant, n2: Instant, appt: Appointment, week: BookingWeek)
    requires n1 <= n2 && CanCancel(n2, appt, week)
    ensures CanCancel(n1, appt, week)
  {
  }

  /** The two boundaries: the close itself is excluded, start - 2h itself is included. */
  lemma CancelBoundaries(appt: Appointment, week: BookingWeek)
    ensures InActiveWeek(appt.date, week) ==>
      CanCancel(week.windowCloseLocal - 1, appt, week) && !CanCancel(week.windowCloseLocal, appt, week)
    ensures !InActiveWeek(appt.date, week) ==>
      CanCancel(StartInstant(appt) - LeadTime, appt, week) && !CanCancel(StartInstant(appt) - LeadTime + 1, appt, week)
  {
  }

  /** Start times within the same minute are treated alike. */
  lemma {:induction false} SecondsDoNotMatter(now: Instant, a1: Appointment, a2: Appointment, week: BookingWeek)
    requires a1.date == a2.date && a1.startTime / SecondsPerMinute == a2.startTime / SecondsPerMinute
    ensures CanCancel(now, a1, week) == CanCancel(now, a2, week)
    ensures WhyNot(now, a1, week) == WhyNot(now, a2, week)
  {
  }

  /** Judged against the week in force now, an appointment of that week can be
      cancelled exactly while the booking window is open. */
  lemma {:induction false} ActiveWeekCancelWhileOpen(now: Instant, appt: Appointment)
    requires InActiveWeek(appt.date, GetCurrentWeek(now))
    ensures CanCancel(now, appt, GetCurrentWeek(now)) <==> IsWindowOpen(now)
  {
  }

  /** An appointment outside the active week that starts more than two hours
      later is cancellable; one starting within two hours is not. */
  lemma {:induction false} LeadTimeRule(now: Instant, appt: Appointment, week: BookingWeek)
    requires !InActiveWeek(appt.date, week) && appt.startTime % SecondsPerMinute == 0
    ensures CanCancel(now, appt, week) <==> At(appt.date, appt.startTime) - now >= LeadTime
  {
    assert StartInstant(appt) == At(appt.date, appt.startTime);
  }
}
