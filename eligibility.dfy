/** The 14-day rule: a user may book a date only if it is at least 14 days
    after the latest date among the user's active appointments. */
module EligibilityService {
  import opened Wrappers
  import opened Calendar
  import opened Entities

  const MinGapDays: int := 14

  /** (ok, reason): when rejected, the reason quotes the user's last active date. */
  datatype EligibilityResult = EligibilityResult(ok: bool, reason: Option<Day>)

  /** Only the user's active appointments count. */
  predicate Restricts(a: Appointment, userName: string) {
    a.isActive && a.userName == userName
  }

  /** The latest date among the user's active appointments, if any. */
  function LastActiveDate(appts: seq<Appointment>, userName: string): (r: Option<Day>)
    ensures r.None? <==> forall i :: 0 <= i < |appts| ==> !Restricts(appts[i], userName)
    ensures r.Some? ==> exists i :: 0 <= i < |appts| && Restricts(appts[i], userName) && appts[i].date == r.value
    ensures r.Some? ==> forall i :: 0 <= i < |appts| && Restricts(appts[i], userName) ==> appts[i].date <= r.value
  {
    if appts == [] then None
    else
      var rest := LastActiveDate(appts[1..], userName);
      assert forall i :: 1 <= i < |appts| ==> appts[i] == appts[1..][i - 1];
      var a := appts[0];
      if !Restricts(a, userName) then rest
      else if rest.Some? && rest.value > a.date then rest
      else Some(a.date)
  }

  /** Check14DayRuleAsync. Rejected exactly when the requested date is less
      than 14 days after some active appointment of the user. */
  function Check14DayRule(appts: seq<Appointment>, userName: string, requestedDate: Day): (r: EligibilityResult)
    ensures r.ok <==> r.reason.None?
    ensures r.ok <==> forall i :: 0 <= i < |appts| && Restricts(appts[i], userName) ==>
                                  requestedDate - appts[i].date >= MinGapDays
    ensures !r.ok ==> r.reason == LastActiveDate(appts, userName)
  {
    var lastDate := LastActiveDate(appts, userName);
    if lastDate.None? then EligibilityResult(true, None)
    else
      var diffDays := requestedDate - lastDate.value;
      if diffDays < MinGapDays then EligibilityResult(false, lastDate)
      else EligibilityResult(true, None)
  }

  /** Cancelled appointments and other users' appointments never restrict. */
  lemma OthersNeverRestrict(appts: seq<Appointment>, a: Appointment, userName: string, requestedDate: Day)
    requires !a.isActive || a.userName != userName
    ensures Check14DayRule(appts + [a], userName, requestedDate) == Check14DayRule(appts, userName, requestedDate)
  {
    LastActiveIgnoresOthers(appts, a, userName);
  }

  lemma {:induction false} LastActiveIgnoresOthers(appts: seq<Appointment>, a: Appointment, userName: string)
    requires !Restricts(a, userName)
    ensures LastActiveDate(appts + [a], userName) == LastActiveDate(appts, userName)
  {
    var s := appts + [a];
    var l1, l2 := LastActiveDate(s, userName), LastActiveDate(appts, userName);
    if l1.Some? {
      var i :| 0 <= i < |s| && Restricts(s[i], userName) && s[i].date == l1.value;
      assert i != |appts|;
      assert s[i] == appts[i];
      assert Restricts(appts[i], userName);
      var j :| 0 <= j < |appts| && Restricts(appts[j], userName) && appts[j].date == l2.value;
      assert s[j] == appts[j];
      assert l2.value <= l1.value && l1.value <= l2.value;
    } else {
      forall j | 0 <= j < |appts| ensures !Restricts(appts[j], userName) {
        assert s[j] == appts[j];
      }
    }
  }

  /** Exactly 14 days after the last active appointment passes; 13 days, and any earlier date, fail. */
  lemma FourteenDayBoundary(appts: seq<Appointment>, userName: string, last: Day)
    requires LastActiveDate(appts, userName) == Some(last)
    ensures Check14DayRule(appts, userName, last + 14).ok
    ensures !Check14DayRule(appts, userName, last + 13).ok
    ensures forall d :: d <= last ==> !Check14DayRule(appts, userName, d).ok
  {
  }
}
