/** The booking API: the week grid a user sees, booking one chair at one
    start time, and cancelling one's own appointment. Every request judges
    "now" against the week in force (BookingWindowService). */
module BookingController {
  import opened Wrappers
  import opened Calendar
  import opened Entities
  import opened Data
  import opened Text
  import opened BookingWindowService
  import opened SlotRules
  import Linq
  import BlockService
  import EligibilityService
  import CancelPolicy

  // ---------------------------------------------------------------------
  // Shared helpers

  /** Monday = 1 .. Sunday = 7, computed here a second time. */
  function IsoDow(d: Day): (r: int)
    ensures 1 <= r <= 7
    ensures r == BlockService.ToIsoDayOfWeek(d)
  {
    var dow := DayOfWeek(d);
    if dow == 0 then 7 else dow
  }

  /** The dates start, start + 1, ..., end. */
  function EachDay(start: Day, end: Day): (r: seq<Day>)
    ensures |r| == if start <= end then end - start + 1 else 0
    ensures forall i :: 0 <= i < |r| ==> r[i] == start + i
    decreases end - start
  {
    if start > end then [] else [start] + EachDay(start + 1, end)
  }

  /** Salons.FirstOrDefault(s => s.Id == salonId && s.IsActive). */
  function FindActiveSalon(salons: seq<Salon>, salonId: int): (r: Option<Salon>)
    ensures r.None? <==> forall i :: 0 <= i < |salons| ==> !(salons[i].id == salonId && salons[i].isActive)
    ensures r.Some? ==> r.value in salons && r.value.id == salonId && r.value.isActive
  {
    Linq.FirstOrDefault(salons, (s: Salon) => s.id == salonId && s.isActive)
  }

  /** With ids as positions, the lookup by id reads row id - 1. */
  lemma FindActiveSalonById(salons: seq<Salon>, salonId: int)
    requires SalonIds(salons)
    ensures FindActiveSalon(salons, salonId) ==
      if 1 <= salonId <= |salons| && salons[salonId - 1].isActive then Some(salons[salonId - 1]) else None
  {
    var r := FindActiveSalon(salons, salonId);
    if r.Some? {
      var i :| 0 <= i < |salons| && salons[i] == r.value;
    } else if 1 <= salonId <= |salons| {
      assert !(salons[salonId - 1].id == salonId && salons[salonId - 1].isActive);
    }
  }

  /** The number of chairs the `for (chair = 1; chair <= ChairCount; chair++)` loop visits. */
  function ChairsOf(s: Salon): nat {
    if s.chairCount < 0 then 0 else s.chairCount
  }

  datatype SlotState = Active | Booked | Closed

  /** The real-time notification: group "salon:{id}:week:{monday}" and its payload. */
  datatype SlotChanged = SlotChanged(
    groupSalonId: int, groupMonday: Day,
    salonId: int, date: Day, startTime: TimeOfDay, chairNo: int, status: SlotState)

  // ---------------------------------------------------------------------
  // Book

  /** A booking request: salon, chair, and the results of parsing its date and time texts. */
  datatype BookRequest = BookRequest(salonId: int, chairNo: int, date: Option<Day>, startTime: Option<TimeOfDay>)

  /** One call of Book: the clock, the caller's identity and the request. */
  datatype BookCall = BookCall(
    now: Instant, isEngineer: bool, userName: string, displayName: string, req: BookRequest)

  /** Rejections, in the order Book tests them. */
  datatype BookError =
    | BookingClosed
    | NoUserName
    | BadDateFormat
    | BadTimeFormat
    | OutsideActiveWeek
    | SalonUnavailable
    | BadChair
    | OutsideSlotHours
    | TooSoon(lastDate: Day)
    | SlotBlocked
    | JustFilled

  function Rank(e: BookError): nat {
    match e
    case BookingClosed => 0
    case NoUserName => 1
    case BadDateFormat => 2
    case BadTimeFormat => 3
    case OutsideActiveWeek => 4
    case SalonUnavailable => 5
    case BadChair => 6
    case OutsideSlotHours => 7
    case TooSoon(_) => 8
    case SlotBlocked => 9
    case JustFilled => 10
  }

  /** Check number k of Book's chain (0 .. 9), stated on its own. */
  predicate CheckHolds(call: BookCall, salons: seq<Salon>, appts: seq<Appointment>,
                       manual: seq<ManualBlock>, recurring: seq<RecurringBlock>, k: nat)
  {
    var week := GetCurrentWeek(call.now);
    var req := call.req;
    var salon := FindActiveSalon(salons, req.salonId);
    if k == 0 then CanUserBookNow(call.now, call.isEngineer)
    else if k == 1 then !IsBlank(call.userName)
    else if k == 2 then req.date.Some?
    else if k == 3 then req.startTime.Some?
    else if k == 4 then req.date.Some? && week.monday <= req.date.value <= week.sunday
    else if k == 5 then salon.Some?
    else if k == 6 then salon.Some? && 1 <= req.chairNo <= salon.value.chairCount
    else if k == 7 then req.startTime.Some? && IsValidSlot(req.startTime.value)
    else if k == 8 then req.date.Some? && EligibilityService.Check14DayRule(appts, call.userName, req.date.value).ok
    else if k == 9 then req.date.Some? && req.startTime.Some? &&
      !BlockService.IsBlocked(manual, recurring, req.salonId, req.date.value, req.startTime.value, req.chairNo)
    else true
  }

  /** Everything Book demands before it inserts, in the system's own terms. */
  predicate Bookable(call: BookCall, salons: seq<Salon>, appts: seq<Appointment>,
                     manual: seq<ManualBlock>, recurring: seq<RecurringBlock>)
  {
    var week := GetCurrentWeek(call.now);
    var req := call.req;
    var salon := FindActiveSalon(salons, req.salonId);
    CanUserBookNow(call.now, call.isEngineer) && !IsBlank(call.userName) &&
    req.date.Some? && req.startTime.Some? &&
    week.monday <= req.date.value <= week.sunday &&
    salon.Some? && 1 <= req.chairNo <= salon.value.chairCount &&
    IsValidSlot(req.startTime.value) &&
    (forall j :: 0 <= j < |appts| && EligibilityService.Restricts(appts[j], call.userName) ==>
       req.date.value - appts[j].date >= EligibilityService.MinGapDays) &&
    !BlockService.IsBlocked(manual, recurring, req.salonId, req.date.value, req.startTime.value, req.chairNo)
  }

  datatype Verdict =
    | Approved(salon: Salon, date: Day, startTime: TimeOfDay)
    | Refused(error: BookError)

  /** Book's checks up to the insert, in source order. */
  function Validate(call: BookCall, salons: seq<Salon>, appts: seq<Appointment>,
                    manual: seq<ManualBlock>, recurring: seq<RecurringBlock>): (r: Verdict)
    ensures r.Approved? <==> Bookable(call, salons, appts, manual, recurring)
    ensures r.Approved? ==> call.req.date == Some(r.date) && call.req.startTime == Some(r.startTime) &&
                            FindActiveSalon(salons, call.req.salonId) == Some(r.salon)
    ensures r.Refused? ==> Rank(r.error) < 10
    ensures r.Refused? && r.error.TooSoon? ==>
      EligibilityService.LastActiveDate(appts, call.userName) == Some(r.error.lastDate)
  {
    var week := GetCurrentWeek(call.now);
    var req := call.req;
    if !CanUserBookNow(call.now, call.isEngineer) then Refused(BookingClosed)
    else if IsBlank(call.userName) then Refused(NoUserName)
    else if req.date.None? then Refused(BadDateFormat)
    else if req.startTime.None? then Refused(BadTimeFormat)
    else
      var date := req.date.value;
      var startTime := req.startTime.value;
      if date < week.monday || date > week.sunday then Refused(OutsideActiveWeek)
      else
        var salon := FindActiveSalon(salons, req.salonId);
        if salon.None? then Refused(SalonUnavailable)
        else if req.chairNo < 1 || req.chairNo > salon.value.chairCount then Refused(BadChair)
        else if !IsValidSlot(startTime) then Refused(OutsideSlotHours)
        else
          var elig := EligibilityService.Check14DayRule(appts, call.userName, date);
          if !elig.ok then Refused(TooSoon(elig.reason.value))
          else if BlockService.IsBlocked(manual, recurring, req.salonId, date, startTime, req.chairNo) then
            Refused(SlotBlocked)
          else Approved(salon.value, date, startTime)
  }

  /** Validate reports the first of Book's checks that fails, in source order,
      and approves only when all ten hold. */
  lemma {:induction false} ValidateIsFirstFailingCheck(call: BookCall, salons: seq<Salon>, appts: seq<Appointment>,
                                                       manual: seq<ManualBlock>, recurring: seq<RecurringBlock>)
    ensures var r := Validate(call, salons, appts, manual, recurring);
      && (r.Approved? <==> forall k :: 0 <= k < 10 ==> CheckHolds(call, salons, appts, manual, recurring, k))
      && (r.Refused? ==> !CheckHolds(call, salons, appts, manual, recurring, Rank(r.error)))
      && (r.Refused? ==> forall k :: 0 <= k < Rank(r.error) ==> CheckHolds(call, salons, appts, manual, recurring, k))
  {
    var r := Validate(call, salons, appts, manual, recurring);
    if r.Refused? {
      assert !CheckHolds(call, salons, appts, manual, recurring, Rank(r.error));
    } else {
      forall k | 0 <= k < 10 ensures CheckHolds(call, salons, appts, manual, recurring, k) {
      }
    }
  }

  /** The row Book inserts for an approved request. */
  function NewAppointment(call: BookCall, v: Verdict, id: int): (a: Appointment)
    requires v.Approved?
    ensures a.isActive && a.id == id && a.userName == call.userName
    ensures KeyOf(a) == BookingKey(call.req.salonId, v.date, v.startTime, call.req.chairNo)
  {
    Appointment(id, call.req.salonId, call.req.chairNo, v.date, v.startTime, call.userName, call.displayName, true)
  }

  datatype BookOutcome =
    | BookedOk(id: int, event: SlotChanged)
    | BookRejected(error: BookError)

  /** Book: the checks, then the insert under the unique index. */
  method Book(db: AppDb, call: BookCall) returns (r: BookOutcome)
    requires db.Valid()
    modifies db`appointments
    ensures db.Valid() && LedgerStep(old(db.appointments), db.appointments)
    ensures var v := Validate(call, db.salons, old(db.appointments), db.manualBlocks, db.recurringBlocks);
      && (v.Refused? ==> r == BookRejected(v.error) && db.appointments == old(db.appointments))
      && (v.Approved? && HasBookingKey(old(db.appointments), KeyOf(NewAppointment(call, v, 0))) ==>
            r == BookRejected(JustFilled) && db.appointments == old(db.appointments))
      && (v.Approved? && !HasBookingKey(old(db.appointments), KeyOf(NewAppointment(call, v, 0))) ==>
            r.BookedOk? && r.id == |old(db.appointments)| + 1 &&
            db.appointments == old(db.appointments) + [NewAppointment(call, v, r.id)] &&
            r.event == SlotChanged(call.req.salonId, GetCurrentWeek(call.now).monday,
                                   call.req.salonId, v.date, v.startTime, call.req.chairNo, Booked))
  {
    var v := Validate(call, db.salons, db.appointments, db.manualBlocks, db.recurringBlocks);
    if v.Refused? {
      return BookRejected(v.error);
    }
    ghost var before := db.appointments;
    var appt := NewAppointment(call, v, |db.appointments| + 1);
    var ok := db.TryAddAppointment(appt);
    if !ok {
      return BookRejected(JustFilled);
    }
    var week := GetCurrentWeek(call.now);
    r := BookedOk(appt.id, SlotChanged(call.req.salonId, week.monday, call.req.salonId, v.date, v.startTime, call.req.chairNo, Booked));
  }

  /** A booking leaves the user an active appointment that makes every date
      fewer than 14 days after it ineligible for the same user. */
  lemma {:induction false} NoSecondBookingWithinFourteenDays(
    call: BookCall, salons: seq<Salon>, appts: seq<Appointment>,
    manual: seq<ManualBlock>, recurring: seq<RecurringBlock>, a: Appointment)
    requires a.isActive && a.userName == call.userName
    requires call.req.date.Some? && call.req.date.value - a.date < EligibilityService.MinGapDays
    ensures Validate(call, salons, appts + [a], manual, recurring).Refused?
  {
    var s := appts + [a];
    assert EligibilityService.Restricts(s[|appts|], call.userName);
  }

  /** Whatever happened to the first request, the same request made again
      right after it does not book. */
  method BookSameRequestTwice(db: AppDb, call: BookCall) returns (first: BookOutcome, second: BookOutcome)
    requires db.Valid()
    modifies db`appointments
    ensures !second.BookedOk?
    ensures first.BookedOk? ==> |db.appointments| == |old(db.appointments)| + 1
  {
    first := Book(db, call);
    ghost var middle := db.appointments;
    second := Book(db, call);
    if first.BookedOk? {
      NoSecondBookingWithinFourteenDays(call, db.salons, old(db.appointments), db.manualBlocks, db.recurringBlocks,
                                        middle[|middle| - 1]);
    }
  }

  // ---------------------------------------------------------------------
  // Cancel

  datatype CancelError =
    | CancelClosed
    | CancelNoUserName
    | AppointmentNotFound
    | NotOwner
    | TooLate(why: CancelPolicy.CancelDenial)

  datatype CancelVerdict = CancelApproved(index: nat) | CancelRefused(error: CancelError)

  /** Appointments.FirstOrDefault(a => a.Id == id && a.IsActive), as a position. */
  function FindActiveAppointment(appts: seq<Appointment>, appointmentId: int): (r: Option<nat>)
    ensures r.None? <==> forall i :: 0 <= i < |appts| ==> !(appts[i].id == appointmentId && appts[i].isActive)
    ensures r.Some? ==> r.value < |appts| && appts[r.value].id == appointmentId && appts[r.value].isActive
  {
    Linq.FirstIndex(appts, (a: Appointment) => a.id == appointmentId && a.isActive)
  }

  /** With ids as positions, the lookup finds row id - 1 while it is active. */
  lemma FindActiveAppointmentById(appts: seq<Appointment>, appointmentId: int)
    requires AppointmentIds(appts)
    ensures FindActiveAppointment(appts, appointmentId) ==
      if 1 <= appointmentId <= |appts| && appts[appointmentId - 1].isActive then Some(appointmentId - 1) else None
  {
    if 1 <= appointmentId <= |appts| && !appts[appointmentId - 1].isActive {
      assert forall i :: 0 <= i < |appts| && appts[i].id == appointmentId ==> i == appointmentId - 1;
    }
  }

  /** Cancel's checks, in source order: window, caller, row, owner, policy. */
  function CheckCancel(now: Instant, userName: string, appointmentId: int, appts: seq<Appointment>): (r: CancelVerdict)
    ensures var k := FindActiveAppointment(appts, appointmentId);
      && (r == CancelRefused(CancelClosed) <==> !IsWindowOpen(now))
      && (r == CancelRefused(CancelNoUserName) <==> IsWindowOpen(now) && IsBlank(userName))
      && (r == CancelRefused(AppointmentNotFound) <==> IsWindowOpen(now) && !IsBlank(userName) && k.None?)
      && (r == CancelRefused(NotOwner) <==>
            IsWindowOpen(now) && !IsBlank(userName) && k.Some? && appts[k.value].userName != userName)
      && (r.CancelRefused? && r.error.TooLate? <==>
            IsWindowOpen(now) && !IsBlank(userName) && k.Some? && appts[k.value].userName == userName &&
            !CancelPolicy.CanCancel(now, appts[k.value], GetCurrentWeek(now)))
      && (r.CancelRefused? && r.error.TooLate? ==>
            r.error.why == CancelPolicy.WhyNot(now, appts[k.value], GetCurrentWeek(now)))
      && (r.CancelApproved? <==>
            IsWindowOpen(now) && !IsBlank(userName) && k.Some? && appts[k.value].userName == userName &&
            CancelPolicy.CanCancel(now, appts[k.value], GetCurrentWeek(now)))
      && (r.CancelApproved? ==> k == Some(r.index))
  {
    var week := GetCurrentWeek(now);
    if !IsWindowOpen(now) then CancelRefused(CancelClosed)
    else if IsBlank(userName) then CancelRefused(CancelNoUserName)
    else
      var k := FindActiveAppointment(appts, appointmentId);
      if k.None? then CancelRefused(AppointmentNotFound)
      else
        var appt := appts[k.value];
        if appt.userName != userName then CancelRefused(NotOwner)
        else if !CancelPolicy.CanCancel(now, appt, week) then
          CancelRefused(TooLate(CancelPolicy.WhyNot(now, appt, week)))
        else CancelApproved(k.value)
  }

  datatype CancelOutcome =
    | CancelledOk(event: SlotChanged)
    | CancelRejected(error: CancelError)

  /** Cancel: a soft delete of the caller's own active appointment. */
  method Cancel(db: AppDb, now: Instant, userName: string, appointmentId: int) returns (r: CancelOutcome)
    requires db.Valid()
    modifies db`appointments
    ensures db.Valid() && LedgerStep(old(db.appointments), db.appointments)
    ensures var v := CheckCancel(now, userName, appointmentId, old(db.appointments));
      && (v.CancelRefused? ==> r == CancelRejected(v.error) && db.appointments == old(db.appointments))
      && (v.CancelApproved? ==>
            var a := old(db.appointments)[v.index];
            db.appointments == old(db.appointments)[v.index := a.(isActive := false)] &&
            r == CancelledOk(SlotChanged(a.salonId, GetCurrentWeek(now).monday,
                                         a.salonId, a.date, a.startTime, a.chairNo, Active)))
  {
    var v := CheckCancel(now, userName, appointmentId, db.appointments);
    if v.CancelRefused? {
      return CancelRejected(v.error);
    }
    var a := db.appointments[v.index];
    db.DeactivateAppointment(v.index);
    var week := GetCurrentWeek(now);
    r := CancelledOk(SlotChanged(a.salonId, week.monday, a.salonId, a.date, a.startTime, a.chairNo, Active));
  }

  /** Once cancelled, the same appointment id is not found any more. */
  lemma {:induction false} CancelTwiceNotFound(now: Instant, userName: string, appointmentId: int, appts: seq<Appointment>)
    requires AppointmentIds(appts)
    requires CheckCancel(now, userName, appointmentId, appts).CancelApproved?
    ensures var i := CheckCancel(now, userName, appointmentId, appts).index;
      CheckCancel(now, userName, appointmentId, appts[i := appts[i].(isActive := false)]) ==
        CancelRefused(AppointmentNotFound)
  {
    var i := CheckCancel(now, userName, appointmentId, appts).index;
    var after := appts[i := appts[i].(isActive := false)];
    FindActiveAppointmentById(appts, appointmentId);
    assert AppointmentIds(after);
    FindActiveAppointmentById(after, appointmentId);
  }

  // ---------------------------------------------------------------------
  // GetWeek

  /** One cell of the grid; name and id are disclosed only on the caller's own booking. */
  datatype SlotCell = SlotCell(
    chairNo: int, date: Day, startTime: TimeOfDay, status: SlotState,
    isMine: bool, displayName: Option<string>, appointmentId: Option<int>)

  datatype MyAppointment = MyAppointment(id: int, salonId: int, chairNo: int, date: Day, startTime: TimeOfDay)

  datatype WeekSnapshot = WeekSnapshot(
    monday: Day, sunday: Day, isWindowOpen: bool, windowCloseLocal: Instant,
    myAppointments: seq<MyAppointment>, slots: seq<SlotCell>)

  datatype WeekResult = WeekUnauthorized | WeekNotFound | WeekOk(snapshot: WeekSnapshot)

  /** What the grid is computed from: the three queries' results and the caller. */
  datatype Grid = Grid(
    appts: seq<Appointment>, manual: seq<ManualBlock>, recurring: seq<RecurringBlock>, userName: string)

  /** The active appointments of the salon dated in the week. */
  function WeekAppointments(appts: seq<Appointment>, salonId: int, week: BookingWeek): (r: seq<Appointment>)
    ensures forall a :: a in r <==> a in appts && a.isActive && a.salonId == salonId && week.monday <= a.date <= week.sunday
  {
    Linq.Where(appts, (a: Appointment) => a.isActive && a.salonId == salonId && a.date >= week.monday && a.date <= week.sunday)
  }

  /** The three queries GetWeek runs against the tables. */
  function WeekGrid(appts: seq<Appointment>, manual: seq<ManualBlock>, recurring: seq<RecurringBlock>,
                    salonId: int, week: BookingWeek, userName: string): Grid
  {
    Grid(WeekAppointments(appts, salonId, week),
         BlockService.GetManualBlocksForRange(manual, salonId, week.monday, week.sunday),
         BlockService.GetRecurringBlocks(recurring, salonId),
         userName)
  }

  function GridOf(db: AppDb, salonId: int, week: BookingWeek, userName: string): Grid
    reads db
  {
    WeekGrid(db.appointments, db.manualBlocks, db.recurringBlocks, salonId, week, userName)
  }

  /** The grid's manual-block test: the range query already kept the salon's active blocks. */
  predicate GridManualCovers(b: ManualBlock, day: Day, t: TimeOfDay, chair: int) {
    b.date == day && BlockService.ChairMatches(b.chairNo, chair) && t >= b.startTime && t < b.endTime
  }

  /** The grid's recurring-block test, given the day's ISO weekday. */
  predicate GridRecurringCovers(r: RecurringBlock, isoDow: int, t: TimeOfDay, chair: int) {
    BlockService.ChairMatches(r.chairNo, chair) && t >= r.startTime && t < r.endTime &&
    (r.kind == Daily || (r.kind == Weekly && r.dayOfWeekIso == Some(isoDow)))
  }

  /** The in-grid block test, over the two queries' results. */
  function GridBlocked(g: Grid, day: Day, t: TimeOfDay, chair: int): bool {
    var isoDow := IsoDow(day);
    Linq.Any(g.manual, (b: ManualBlock) => GridManualCovers(b, day, t, chair)) ||
    Linq.Any(g.recurring, (r: RecurringBlock) => GridRecurringCovers(r, isoDow, t, chair))
  }

  /** weekAppts.FirstOrDefault(x => x.Date == day && x.StartTime == t && x.ChairNo == chair). */
  function BookingAt(weekAppts: seq<Appointment>, day: Day, t: TimeOfDay, chair: int): (r: Option<Appointment>)
    ensures r.None? <==> forall a :: a in weekAppts ==> !(a.date == day && a.startTime == t && a.chairNo == chair)
    ensures r.Some? ==> r.value in weekAppts && r.value.date == day && r.value.startTime == t && r.value.chairNo == chair
  {
    var r := Linq.FirstOrDefault(weekAppts, (x: Appointment) => x.date == day && x.startTime == t && x.chairNo == chair);
    assert r.Some? ==> r.value in weekAppts;
    r
  }

  /** The body of the innermost loop. */
  function CellFor(g: Grid, day: Day, t: TimeOfDay, chair: int): SlotCell {
    if GridBlocked(g, day, t, chair) then SlotCell(chair, day, t, Closed, false, None, None)
    else
      var a := BookingAt(g.appts, day, t, chair);
      if a.None? then SlotCell(chair, day, t, Active, false, None, None)
      else if a.value.userName == g.userName then
        SlotCell(chair, day, t, Booked, true, Some(a.value.displayName), Some(a.value.id))
      else SlotCell(chair, day, t, Booked, false, None, None)
  }

  /** CellFor as a value, so that the grid's shape is stated once for any cell function. */
  function CellOf(g: Grid): (Day, TimeOfDay, int) -> SlotCell {
    (day: Day, t: TimeOfDay, chair: int) => CellFor(g, day, t, chair)
  }

  /** Chairs 1..n at one day and time. */
  function ChairCells<T>(cell: (Day, TimeOfDay, int) -> T, day: Day, t: TimeOfDay, n: nat): (r: seq<T>)
    ensures |r| == n
    ensures forall c :: 0 <= c < n ==> r[c] == cell(day, t, c + 1)
  {
    if n == 0 then [] else ChairCells(cell, day, t, n - 1) + [cell(day, t, n)]
  }

  /** The cells of one time: chairs 1..n. */
  function TimeRow<T>(cell: (Day, TimeOfDay, int) -> T, day: Day, n: nat): TimeOfDay -> seq<T> {
    (t: TimeOfDay) => ChairCells(cell, day, t, n)
  }

  /** Every time of one day, each followed by its chairs. */
  function DayCells<T>(cell: (Day, TimeOfDay, int) -> T, day: Day, times: seq<TimeOfDay>, n: nat): seq<T> {
    Linq.SelectMany(times, TimeRow(cell, day, n))
  }

  /** The cells of one day. */
  function DayRow<T>(cell: (Day, TimeOfDay, int) -> T, times: seq<TimeOfDay>, n: nat): Day -> seq<T> {
    (day: Day) => DayCells(cell, day, times, n)
  }

  /** Every day of the week, in order. */
  function WeekCells<T>(cell: (Day, TimeOfDay, int) -> T, days: seq<Day>, times: seq<TimeOfDay>, n: nat): seq<T> {
    Linq.SelectMany(days, DayRow(cell, times, n))
  }

  lemma Regroup(d: int, t: int, k: int, n: int, c: int)
    ensures (d * t + k) * n + c == d * (t * n) + (k * n + c)
  {
  }

  /** d * per + j stays inside m rows of length per. */
  lemma RowIndexBound(d: nat, m: nat, j: nat, per: nat)
    requires d < m && j < per
    ensures d * per + j < m * per
  {
    assert d * per + per == (d + 1) * per;
    MulMono(d + 1, m, per);
  }

  lemma {:induction false} MulMono(a: nat, b: nat, per: nat)
    requires a <= b
    ensures a * per <= b * per
    decreases b - a
  {
    if a < b {
      assert (a + 1) * per == a * per + per;
      MulMono(a + 1, b, per);
    }
  }

  /** A day has |times| * n cells; the one for time k and chair c + 1 sits at k * n + c. */
  lemma DayCellsAt<T>(cell: (Day, TimeOfDay, int) -> T, day: Day, times: seq<TimeOfDay>, n: nat, k: nat, c: nat)
    requires k < |times| && c < n
    ensures |DayCells(cell, day, times, n)| == |times| * n
    ensures k * n + c < |times| * n
    ensures DayCells(cell, day, times, n)[k * n + c] == cell(day, times[k], c + 1)
  {
    var row := TimeRow(cell, day, n);
    Linq.SelectManyAt(times, row, k, c);
    Linq.SelectManyLength(times[..k], row, n);
    Linq.SelectManyLength(times, row, n);
    assert |times[..k]| == k;
    RowIndexBound(k, |times|, c, n);
  }

  /** The week has total == |days| * |times| * n cells, and the cell for day
      d, time k and chair c + 1 sits at index idx == (d * |times| + k) * n + c. */
  lemma WeekCellsAt<T>(cell: (Day, TimeOfDay, int) -> T, days: seq<Day>, times: seq<TimeOfDay>, n: nat,
                       d: nat, k: nat, c: nat, idx: nat, total: nat)
    requires d < |days| && k < |times| && c < n
    requires total == |days| * (|times| * n) && idx == (d * |times| + k) * n + c
    ensures |WeekCells(cell, days, times, n)| == total
    ensures idx < total
    ensures WeekCells(cell, days, times, n)[idx] == cell(days[d], times[k], c + 1)
  {
    var per := |times| * n;
    DayCellsAt(cell, days[d], times, n, k, c);
    var dayRow := DayRow(cell, times, n);
    Linq.SelectManyAt(days, dayRow, d, k * n + c);
    forall i | 0 <= i < |days| ensures |dayRow(days[i])| == per {
      Linq.SelectManyLength(times, TimeRow(cell, days[i], n), n);
    }
    Linq.SelectManyLength(days[..d], dayRow, per);
    Linq.SelectManyLength(days, dayRow, per);
    assert |days[..d]| == d;
    RowIndexBound(d, |days|, k * n + c, per);
    Regroup(d, |times|, k, n, c);
  }

  /** The chair loop: chairs 1..n at one day and time. */
  method ChairSlots(g: Grid, day: Day, t: TimeOfDay, n: nat) returns (cells: seq<SlotCell>)
    ensures cells == ChairCells(CellOf(g), day, t, n)
  {
    cells := [];
    var chair := 1;
    while chair <= n
      invariant 1 <= chair <= n + 1
      invariant cells == ChairCells(CellOf(g), day, t, chair - 1)
    {
      cells := cells + [CellFor(g, day, t, chair)];
      chair := chair + 1;
    }
  }

  /** The loop over the enumerated slots of one day, with the chair loop inside. */
  method DaySlots(g: Grid, day: Day, n: nat) returns (cells: seq<SlotCell>)
    ensures cells == DayCells(CellOf(g), day, DailySlots(), n)
  {
    var times := EnumerateDailySlots();
    cells := [];
    var j := 0;
    while j < |times|
      invariant 0 <= j <= |times|
      invariant cells == DayCells(CellOf(g), day, times[..j], n)
    {
      var chairs := ChairSlots(g, day, times[j], n);
      assert times[..j + 1] == times[..j] + [times[j]];
      Linq.SelectManySnoc(times[..j], times[j], TimeRow(CellOf(g), day, n));
      cells := cells + chairs;
      j := j + 1;
    }
    assert times[..j] == times;
  }

  /** The loop over the days of the week. */
  method BuildSlots(g: Grid, days: seq<Day>, n: nat) returns (slots: seq<SlotCell>)
    ensures slots == WeekCells(CellOf(g), days, DailySlots(), n)
  {
    slots := [];
    var i := 0;
    while i < |days|
      invariant 0 <= i <= |days|
      invariant slots == WeekCells(CellOf(g), days[..i], DailySlots(), n)
    {
      var cells := DaySlots(g, days[i], n);
      assert days[..i + 1] == days[..i] + [days[i]];
      Linq.SelectManySnoc(days[..i], days[i], DayRow(CellOf(g), DailySlots(), n));
      slots := slots + cells;
      i := i + 1;
    }
    assert days[..i] == days;
  }

  /** GetWeek: the caller, the salon, then the grid of day x slot x chair. */
  method GetWeek(db: AppDb, now: Instant, userName: string, salonId: int) returns (r: WeekResult)
    ensures IsBlank(userName) ==> r == WeekUnauthorized
    ensures !IsBlank(userName) && FindActiveSalon(db.salons, salonId).None? ==> r == WeekNotFound
    ensures !IsBlank(userName) && FindActiveSalon(db.salons, salonId).Some? ==>
      var week := GetCurrentWeek(now);
      var g := GridOf(db, salonId, week, userName);
      r == WeekOk(WeekSnapshot(
        week.monday, week.sunday, IsWindowOpen(now), week.windowCloseLocal,
        MyAppointments(g.appts, userName),
        WeekCells(CellOf(g), EachDay(week.monday, week.sunday), DailySlots(), ChairsOf(FindActiveSalon(db.salons, salonId).value))))
  {
    var week := GetCurrentWeek(now);
    if IsBlank(userName) {
      return WeekUnauthorized;
    }
    var salon := FindActiveSalon(db.salons, salonId);
    if salon.None? {
      return WeekNotFound;
    }
    var g := GridOf(db, salonId, week, userName);
    var slots := BuildSlots(g, EachDay(week.monday, week.sunday), ChairsOf(salon.value));
    var mine := MyAppointments(g.appts, userName);
    r := WeekOk(WeekSnapshot(week.monday, week.sunday, IsWindowOpen(now), week.windowCloseLocal, mine, slots));
  }

  /** The caller's rows among the week's appointments, projected. */
  function MyAppointments(weekAppts: seq<Appointment>, userName: string): (r: seq<MyAppointment>)
    ensures forall m :: m in r <==> exists a :: a in weekAppts && a.userName == userName && m == Mine(a)
  {
    var own := Linq.Where(weekAppts, (a: Appointment) => a.userName == userName);
    Linq.SelectMembers(own, Mine);
    Linq.Select(own, Mine)
  }

  /** The fields of an appointment the page lists. */
  function Mine(a: Appointment): MyAppointment {
    MyAppointment(a.id, a.salonId, a.chairNo, a.date, a.startTime)
  }

  /** Over a day of the week, the grid's manual test on the range query's
      results agrees with BlockService's manual test on the whole table. */
  lemma {:induction false} GridManualIsIsBlocked(
    manual: seq<ManualBlock>, salonId: int, week: BookingWeek, day: Day, t: TimeOfDay, chair: int)
    requires week.monday <= day <= week.sunday
    ensures var m := BlockService.GetManualBlocksForRange(manual, salonId, week.monday, week.sunday);
      (exists i :: 0 <= i < |m| && GridManualCovers(m[i], day, t, chair)) <==>
      (exists i :: 0 <= i < |manual| && BlockService.ManualBlockCovers(manual[i], salonId, day, t, chair))
  {
    var m := BlockService.GetManualBlocksForRange(manual, salonId, week.monday, week.sunday);
    if i :| 0 <= i < |m| && GridManualCovers(m[i], day, t, chair) {
      GridManualSound(manual, m, salonId, week, day, t, chair, m[i]);
    }
    if i :| 0 <= i < |manual| && BlockService.ManualBlockCovers(manual[i], salonId, day, t, chair) {
      GridManualComplete(manual, m, salonId, week, day, t, chair, manual[i]);
    }
  }

  lemma GridManualSound(manual: seq<ManualBlock>, m: seq<ManualBlock>, salonId: int, week: BookingWeek,
                        day: Day, t: TimeOfDay, chair: int, b: ManualBlock)
    requires m == BlockService.GetManualBlocksForRange(manual, salonId, week.monday, week.sunday)
    requires b in m && GridManualCovers(b, day, t, chair)
    ensures exists i :: 0 <= i < |manual| && BlockService.ManualBlockCovers(manual[i], salonId, day, t, chair)
  {
    assert b in manual;
    var i :| 0 <= i < |manual| && manual[i] == b;
    assert BlockService.ManualBlockCovers(manual[i], salonId, day, t, chair);
  }

  lemma GridManualComplete(manual: seq<ManualBlock>, m: seq<ManualBlock>, salonId: int, week: BookingWeek,
                           day: Day, t: TimeOfDay, chair: int, b: ManualBlock)
    requires m == BlockService.GetManualBlocksForRange(manual, salonId, week.monday, week.sunday)
    requires week.monday <= day <= week.sunday
    requires b in manual && BlockService.ManualBlockCovers(b, salonId, day, t, chair)
    ensures exists i :: 0 <= i < |m| && GridManualCovers(m[i], day, t, chair)
  {
    assert b in m;
    var i :| 0 <= i < |m| && m[i] == b;
    assert GridManualCovers(m[i], day, t, chair);
  }

  /** The grid's recurring test on the salon's active blocks agrees with
      BlockService's recurring test on the whole table. */
  lemma {:induction false} GridRecurringIsIsBlocked(
    recurring: seq<RecurringBlock>, salonId: int, isoDow: int, t: TimeOfDay, chair: int)
    ensures var rs := BlockService.GetRecurringBlocks(recurring, salonId);
      (exists j :: 0 <= j < |rs| && GridRecurringCovers(rs[j], isoDow, t, chair)) <==>
      (exists j :: 0 <= j < |recurring| && BlockService.RecurringBlockCovers(recurring[j], salonId, isoDow, t, chair))
  {
    var rs := BlockService.GetRecurringBlocks(recurring, salonId);
    if j :| 0 <= j < |rs| && GridRecurringCovers(rs[j], isoDow, t, chair) {
      GridRecurringSound(recurring, rs, salonId, isoDow, t, chair, rs[j]);
    }
    if j :| 0 <= j < |recurring| && BlockService.RecurringBlockCovers(recurring[j], salonId, isoDow, t, chair) {
      GridRecurringComplete(recurring, rs, salonId, isoDow, t, chair, recurring[j]);
    }
  }

  lemma GridRecurringSound(recurring: seq<RecurringBlock>, rs: seq<RecurringBlock>, salonId: int,
                           isoDow: int, t: TimeOfDay, chair: int, b: RecurringBlock)
    requires rs == BlockService.GetRecurringBlocks(recurring, salonId)
    requires b in rs && GridRecurringCovers(b, isoDow, t, chair)
    ensures exists j :: 0 <= j < |recurring| && BlockService.RecurringBlockCovers(recurring[j], salonId, isoDow, t, chair)
  {
    assert b in recurring;
    var j :| 0 <= j < |recurring| && recurring[j] == b;
    assert BlockService.RecurringBlockCovers(recurring[j], salonId, isoDow, t, chair);
  }

  lemma GridRecurringComplete(recurring: seq<RecurringBlock>, rs: seq<RecurringBlock>, salonId: int,
                              isoDow: int, t: TimeOfDay, chair: int, b: RecurringBlock)
    requires rs == BlockService.GetRecurringBlocks(recurring, salonId)
    requires b in recurring && BlockService.RecurringBlockCovers(b, salonId, isoDow, t, chair)
    ensures exists j :: 0 <= j < |rs| && GridRecurringCovers(rs[j], isoDow, t, chair)
  {
    assert b in rs;
    var j :| 0 <= j < |rs| && rs[j] == b;
    assert GridRecurringCovers(rs[j], isoDow, t, chair);
  }

  /** For a day of the week, the grid's test over the two queries' results
      closes exactly the cells BlockService.IsBlocked closes over the whole tables. */
  lemma {:induction false} GridBlockedIsIsBlocked(
    appts: seq<Appointment>, manual: seq<ManualBlock>, recurring: seq<RecurringBlock>,
    salonId: int, week: BookingWeek, userName: string, day: Day, t: TimeOfDay, chair: int)
    requires week.monday <= day <= week.sunday
    ensures GridBlocked(WeekGrid(appts, manual, recurring, salonId, week, userName), day, t, chair) ==
            BlockService.IsBlocked(manual, recurring, salonId, day, t, chair)
  {
    GridManualIsIsBlocked(manual, salonId, week, day, t, chair);
    GridRecurringIsIsBlocked(recurring, salonId, IsoDow(day), t, chair);
  }

  /** Under the unique index, the week's appointments hold at most one row per cell. */
  lemma {:induction false} WeekAppointmentsUnique(appts: seq<Appointment>, salonId: int, week: BookingWeek, a: Appointment, b: Appointment)
    requires UniqueBookingKeys(appts)
    requires a in WeekAppointments(appts, salonId, week) && b in WeekAppointments(appts, salonId, week)
    requires a.date == b.date && a.startTime == b.startTime && a.chairNo == b.chairNo
    ensures a == b
  {
    SameKeySameRow(appts, a, b);
  }

  /** Within the week, the appointment the grid finds for a cell is the one
      active row of the table that holds the cell's key, if there is one. */
  lemma {:induction false} BookingAtIsTheHolder(appts: seq<Appointment>, salonId: int, week: BookingWeek, day: Day, t: TimeOfDay, chair: int)
    requires UniqueBookingKeys(appts)
    requires week.monday <= day <= week.sunday
    ensures var found := BookingAt(WeekAppointments(appts, salonId, week), day, t, chair);
      var key := BookingKey(salonId, day, t, chair);
      && (found.None? <==> forall a :: a in appts && a.isActive ==> KeyOf(a) != key)
      && (found.Some? ==> found.value in appts && found.value.isActive && KeyOf(found.value) == key)
      && (forall a :: a in appts && a.isActive && KeyOf(a) == key ==> found == Some(a))
  {
    var w := WeekAppointments(appts, salonId, week);
    var found := BookingAt(w, day, t, chair);
    var key := BookingKey(salonId, day, t, chair);
    forall a | a in appts && a.isActive && KeyOf(a) == key
      ensures found == Some(a)
    {
      assert a in w;
      WeekAppointmentsUnique(appts, salonId, week, a, found.value);
    }
  }

  /** What one cell of the grid means, stated over the whole tables: Closed
      exactly when blocked; Booked exactly when not blocked and an active
      appointment holds the cell; the caller's name and appointment id are shown
      exactly when that appointment is the caller's own. */
  lemma {:induction false} CellMeaning(
    appts: seq<Appointment>, manual: seq<ManualBlock>, recurring: seq<RecurringBlock>,
    salonId: int, week: BookingWeek, userName: string, day: Day, t: TimeOfDay, chair: int)
    requires UniqueBookingKeys(appts)
    requires week.monday <= day <= week.sunday
    ensures var c := CellFor(WeekGrid(appts, manual, recurring, salonId, week, userName), day, t, chair);
      var blocked := BlockService.IsBlocked(manual, recurring, salonId, day, t, chair);
      var key := BookingKey(salonId, day, t, chair);
      && c.chairNo == chair && c.date == day && c.startTime == t
      && (c.status == Closed <==> blocked)
      && (c.status == Booked <==> !blocked && exists a :: a in appts && a.isActive && KeyOf(a) == key)
      && (c.isMine <==> !blocked && exists a :: a in appts && a.isActive && KeyOf(a) == key && a.userName == userName)
      && (c.isMine ==> exists a :: a in appts && a.isActive && KeyOf(a) == key && a.userName == userName &&
                                   c.displayName == Some(a.displayName) && c.appointmentId == Some(a.id))
      && (!c.isMine ==> c.displayName.None? && c.appointmentId.None?)
  {
    GridBlockedIsIsBlocked(appts, manual, recurring, salonId, week, userName, day, t, chair);
    BookingAtIsTheHolder(appts, salonId, week, day, t, chair);
  }

  /** The grid has 7 days x 14 start times x n chairs, day-major, then time, then
      chair; the cell of day d, time k and chair c + 1 is CellFor at that
      date, start time and chair. */
  lemma WeekGridShape<T>(cell: (Day, TimeOfDay, int) -> T, week: BookingWeek, n: nat, d: nat, k: nat, c: nat)
    requires week.sunday == week.monday + 6
    requires d < 7 && k < 14 && c < n
    ensures |WeekCells(cell, EachDay(week.monday, week.sunday), DailySlots(), n)| == 98 * n
    ensures (d * 14 + k) * n + c < 98 * n
    ensures WeekCells(cell, EachDay(week.monday, week.sunday), DailySlots(), n)[(d * 14 + k) * n + c] ==
            cell(week.monday + d, DailySlots()[k], c + 1)
  {
    var days := EachDay(week.monday, week.sunday);
    var times := DailySlots();
    assert |days| == 7 && days[d] == week.monday + d;
    WeekCellsAt(cell, days, times, n, d, k, c, (d * 14 + k) * n + c, 98 * n);
  }

  /** MyAppointments lists exactly the caller's active appointments of the salon in the week. */
  lemma MyAppointmentsAreTheCallers(appts: seq<Appointment>, salonId: int, week: BookingWeek, userName: string, m: MyAppointment)
    ensures m in MyAppointments(WeekAppointments(appts, salonId, week), userName) <==>
      exists a :: a in appts && a.isActive && a.salonId == salonId && week.monday <= a.date <= week.sunday &&
                  a.userName == userName && m == Mine(a)
  {
  }
}
